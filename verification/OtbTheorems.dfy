/** What the OTB parser promises: it inverts the encoder, it accepts exactly the
    balanced streams, and every span it reports is closed under escapes.
  */
module OtbTheorems {
  import opened OtbFormat
  import opened OtbLoader

  // ----- round trip -----

  /** Escaped properties are walked over. */
  lemma {:induction false} ParseProps(data: Bytes, i: nat, s: Bytes, stack: seq<OpenNode>, root: Span)
    requires EncodedAt(data, i, Escape(s))
    ensures Parse(data, i, stack, root) == Parse(data, i + |Escape(s)|, stack, root)
    decreases s
  {
    if s != [] {
      var head: Bytes := if s[0] >= 0xFD then [ESCAPE, s[0]] else [s[0]];
      EncodedSplit(data, i, head, Escape(s[1..]));
      assert data[i] == data[i..i + |head|][0];
      ParseProps(data, i + |head|, s[1..], stack, root);
    }
  }

  lemma {:induction false} StartStep(data: Bytes, i: nat, below: seq<OpenNode>, p: OpenNode, root: Span)
    requires i + 1 < |data| && data[i] == START
    ensures Parse(data, i, below + [p], root) ==
      Parse(data, i + 2, (below + [Opened(p, i)]) + [OpenNode(data[i + 1], i + 2, 0, [])], root)
  {
    var o := OpenNode(data[i + 1], i + 2, 0, []);
    assert (below + [p])[..|below|] == below;
    assert below + [Opened(p, i), o] == (below + [Opened(p, i)]) + [o];
  }

  lemma {:induction false} EndStep(data: Bytes, i: nat, below: seq<OpenNode>, p: OpenNode, o: OpenNode, root: Span)
    requires i < |data| && data[i] == END
    ensures Parse(data, i, (below + [p]) + [o], root) == Parse(data, i + 1, below + [Attach(p, Close(o, i))], root)
  {
    var stack := (below + [p]) + [o];
    assert stack[..|stack| - 2] == below;
  }

  /** An open node at position i after the nodes ts in it. */
  function AfterAll(p: OpenNode, ts: seq<Tree>, i: nat): OpenNode
  {
    if ts == [] then p else Opened(p, i).(kids := p.kids + LayoutAll(ts, i))
  }

  lemma {:induction false} AfterAllStep(p: OpenNode, ts: seq<Tree>, i: nat)
    requires ts != []
    ensures AfterAll(p, ts, i) == AfterAll(Attach(Opened(p, i), Layout(ts[0], i)), ts[1..], i + |Encode(ts[0])|)
  {
    var q := Attach(Opened(p, i), Layout(ts[0], i));
    var rest := LayoutAll(ts[1..], i + |Encode(ts[0])|);
    hide Encode, Layout, EncodeAll;
    assert LayoutAll(ts, i) == [Layout(ts[0], i)] + rest;
    assert p.kids + LayoutAll(ts, i) == q.kids + rest;
  }

  lemma {:induction false} CloseAfterAll(t: Tree, i: nat)
    ensures var e := i + 2 + |Escape(t.props)|;
      Close(AfterAll(OpenNode(t.ntype, i + 2, 0, []), t.children, e), e + |EncodeAll(t.children)|) == Layout(t, i)
  {
  }

  /** An encoded node inside an open node becomes one more child of it. */
  lemma {:induction false} ParseNode(data: Bytes, i: nat, t: Tree, below: seq<OpenNode>, p: OpenNode, root: Span)
    requires EncodedAt(data, i, Encode(t))
    ensures Parse(data, i, below + [p], root) ==
      Parse(data, i + |Encode(t)|, below + [Attach(Opened(p, i), Layout(t, i))], root)
    decreases t
  {
    hide *;
    EncodedNode(data, i, t);
    var e := i + 2 + |Escape(t.props)|;
    var c := e + |EncodeAll(t.children)|;
    var o := OpenNode(t.ntype, i + 2, 0, []);
    var stack := below + [Opened(p, i)];
    StartStep(data, i, below, p, root);
    ParseProps(data, i + 2, t.props, stack + [o], root);
    ParseNodes(data, e, t.children, stack, o, root);
    EndStep(data, c, below, Opened(p, i), AfterAll(o, t.children, e), root);
    CloseAfterAll(t, i);
  }

  lemma {:induction false} ParseNodes(data: Bytes, i: nat, ts: seq<Tree>, below: seq<OpenNode>, p: OpenNode, root: Span)
    requires EncodedAt(data, i, EncodeAll(ts))
    ensures Parse(data, i, below + [p], root) == Parse(data, i + |EncodeAll(ts)|, below + [AfterAll(p, ts, i)], root)
    decreases ts
  {
    hide Parse;
    if ts != [] {
      EncodedSplit(data, i, Encode(ts[0]), EncodeAll(ts[1..]));
      ParseNode(data, i, ts[0], below, p, root);
      AfterAllStep(p, ts, i);
      ParseNodes(data, i + |Encode(ts[0])|, ts[1..], below, Attach(Opened(p, i), Layout(ts[0], i)), root);
    }
  }

  lemma {:induction false} FileStart(file: Bytes)
    requires |file| > MINIMAL_SIZE && file[4] == START
    ensures ParseFile(file) == Parse(file, 6, [OpenNode(file[5], 6, 0, [])], NoSpan())
  {
    hide Parse;
  }

  lemma {:induction false} FileEnd(file: Bytes, i: nat, o: OpenNode)
    requires |file| == i + 1 && file[i] == END
    ensures Parse(file, i, [o], NoSpan()) == Parsed(Close(o, i))
  {
  }

  lemma {:induction false} RoundTripParse(file: Bytes, t: Tree)
    requires |file| > MINIMAL_SIZE && EncodedAt(file, 4, Encode(t)) && |file| == 4 + |Encode(t)|
    ensures ParseFile(file) == Parsed(Layout(t, 4))
  {
    EncodedNode(file, 4, t);
    var e, c := 6 + |Escape(t.props)|, |file| - 1;
    var o := OpenNode(t.ntype, 6, 0, []);
    var o' := AfterAll(o, t.children, e);
    FileStart(file);
    FileEnd(file, c, o');
    CloseAfterAll(t, 4);
    hide *;
    ParseProps(file, 6, t.props, [o], NoSpan());
    ParseNodes(file, e, t.children, [], o, NoSpan());
    assert [] + [o] == [o] && [] + [o'] == [o'];
  }

  /** Parsing the encoding of a tree gives its layout, and the properties read back are the original ones. */
  lemma {:induction false} RoundTrip(id: Bytes, t: Tree)
    requires |id| == IDENTIFIER_SIZE && |id + Encode(t)| > MINIMAL_SIZE
    ensures ParseFile(id + Encode(t)) == Parsed(Layout(t, 4))
    ensures Decode(id + Encode(t), Layout(t, 4)) == t
  {
    var file := id + Encode(t);
    assert file[4..4 + |Encode(t)|] == Encode(t);
    RoundTripParse(file, t);
    DecodeInvertsLayout(file, 4, t);
  }

  /** Different trees have different files. */
  lemma {:induction false} EncodeInjective(t: Tree, u: Tree)
    requires Encode(t) == Encode(u)
    ensures t == u
  {
    var pad: Bytes := [0, 0, 0, 0];
    assert (pad + Encode(t))[4..4 + |Encode(t)|] == Encode(t);
    if |Encode(t)| == 3 {
      EncodedNode(pad + Encode(t), 4, t);
      EncodedNode(pad + Encode(t), 4, u);
      EmptyEncoding(t);
      EmptyEncoding(u);
    } else {
      RoundTrip(pad, t);
      RoundTrip(pad, u);
    }
  }

  /** Only a node with no properties and no children is too short for the loader. */
  lemma {:induction false} EmptyEncoding(t: Tree)
    ensures |Encode(t)| == 3 <==> t.props == [] && t.children == []
  {
    assert t.props != [] ==> |Escape(t.props)| > 0;
    assert t.children != [] ==> |EncodeAll(t.children)| >= |Encode(t.children[0])|;
  }

  // ----- acceptance -----

  datatype Token = StartOf(ntype: byte) | EndOf | Data(b: byte)

  datatype Lexed = Dangling | Tokens(ts: seq<Token>)

  function Cons(t: Token, rest: Lexed): Lexed
  {
    match rest
    case Dangling => Dangling
    case Tokens(ts) => Tokens([t] + ts)
  }

  /** The stream as tokens: START takes the next byte as a type, ESCAPE takes the next byte as data. */
  function Lex(data: Bytes, i: nat): Lexed
    requires i <= |data|
    decreases |data| - i
  {
    if i == |data| then Tokens([])
    else if data[i] == START then
      if i + 1 == |data| then Dangling else Cons(StartOf(data[i + 1]), Lex(data, i + 2))
    else if data[i] == END then Cons(EndOf, Lex(data, i + 1))
    else if data[i] == ESCAPE then
      if i + 1 == |data| then Dangling else Cons(Data(data[i + 1]), Lex(data, i + 2))
    else Cons(Data(data[i]), Lex(data, i + 1))
  }

  function Change(t: Token): int
  {
    if t.StartOf? then 1 else if t.EndOf? then -1 else 0
  }

  /** Starts minus ends among the first n tokens. */
  function Depth(ts: seq<Token>, n: nat): int
    requires n <= |ts|
  {
    if n == 0 then 0 else Change(ts[0]) + Depth(ts[1..], n - 1)
  }

  /** Everything opened is closed, and brackets occur only below d open ones. */
  ghost predicate Balanced(ts: seq<Token>, d: nat)
  {
    d + Depth(ts, |ts|) == 0 && forall n :: 0 <= n < |ts| && !ts[n].Data? ==> d + Depth(ts, n) > 0
  }

  lemma {:induction false} BalancedStep(t: Token, ts: seq<Token>, d: nat)
    ensures t.Data? ==> (Balanced([t] + ts, d) <==> Balanced(ts, d))
    ensures !t.Data? ==> (Balanced([t] + ts, d) <==> d > 0 && Balanced(ts, d + Change(t)))
  {
    var all := [t] + ts;
    assert all[1..] == ts;
    assert forall n :: 0 < n <= |all| ==> Depth(all, n) == Change(t) + Depth(ts, n - 1);
    if (t.Data? || d > 0) && Balanced(ts, d + Change(t)) {
      forall n | 0 <= n < |all| && !all[n].Data?
        ensures d + Depth(all, n) > 0
      {
        if n > 0 {
          assert ts[n - 1] == all[n];
        }
      }
    }
    if Balanced(all, d) {
      assert !t.Data? ==> !all[0].Data? && d + Depth(all, 0) > 0;
      forall n | 0 <= n < |ts| && !ts[n].Data?
        ensures d + Change(t) + Depth(ts, n) > 0
      {
        assert all[n + 1] == ts[n];
      }
    }
  }

  /** A run succeeds exactly when the rest of the stream is balanced below the open nodes. */
  lemma {:induction false} ParseAccepts(data: Bytes, i: nat, stack: seq<OpenNode>, root: Span)
    requires i <= |data|
    ensures Parse(data, i, stack, root).Parsed? <==> Lex(data, i).Tokens? && Balanced(Lex(data, i).ts, |stack|)
    decreases |data| - i
  {
    var n := |stack|;
    if i == |data| {
    } else if data[i] == START {
      if i + 1 < |data| {
        if Lex(data, i + 2).Tokens? {
          BalancedStep(StartOf(data[i + 1]), Lex(data, i + 2).ts, n);
        }
        if n > 0 {
          ParseAccepts(data, i + 2, stack[..n - 1] + [Opened(stack[n - 1], i), OpenNode(data[i + 1], i + 2, 0, [])],
            root);
        }
      }
    } else if data[i] == END {
      if Lex(data, i + 1).Tokens? {
        BalancedStep(EndOf, Lex(data, i + 1).ts, n);
      }
      if n == 1 {
        ParseAccepts(data, i + 1, [], Close(stack[0], i));
      } else if n > 1 {
        ParseAccepts(data, i + 1, stack[..n - 2] + [Attach(stack[n - 2], Close(stack[n - 1], i))], root);
      }
    } else if data[i] == ESCAPE {
      if i + 1 < |data| {
        ParseAccepts(data, i + 2, stack, root);
        if Lex(data, i + 2).Tokens? {
          BalancedStep(Data(data[i + 1]), Lex(data, i + 2).ts, n);
        }
      }
    } else {
      ParseAccepts(data, i + 1, stack, root);
      if Lex(data, i + 1).Tokens? {
        BalancedStep(Data(data[i]), Lex(data, i + 1).ts, n);
      }
    }
  }

  /** One root node, everything closed, no bracket outside the root, nothing dangling; data after the root is let
      through. */
  ghost predicate WellFormed(file: Bytes)
    requires |file| > MINIMAL_SIZE
  {
    var lexed := Lex(file, IDENTIFIER_SIZE);
    lexed.Tokens? && lexed.ts != [] && lexed.ts[0].StartOf? && Depth(lexed.ts, |lexed.ts|) == 0 &&
    forall n :: 0 < n < |lexed.ts| && !lexed.ts[n].Data? ==> Depth(lexed.ts, n) > 0
  }

  lemma {:induction false} AcceptsExactlyWellFormed(file: Bytes)
    requires |file| > MINIMAL_SIZE
    ensures ParseFile(file).Parsed? <==> WellFormed(file)
  {
    if file[4] == START {
      ParseAccepts(file, 6, [OpenNode(file[5], 6, 0, [])], NoSpan());
      var rest := Lex(file, 6);
      if rest.Tokens? {
        var ts := Lex(file, 4).ts;
        assert ts[1..] == rest.ts;
        assert forall n :: 0 < n <= |ts| ==> Depth(ts, n) == 1 + Depth(rest.ts, n - 1);
        if WellFormed(file) {
          assert forall n :: 0 <= n < |rest.ts| ==> rest.ts[n] == ts[n + 1];
        }
        if Balanced(rest.ts, 1) {
          assert forall n :: 0 < n < |ts| ==> ts[n] == rest.ts[n - 1];
        }
      }
    }
  }

  // ----- spans -----

  ghost predicate GoodSpan(data: Bytes, begin: int, end: int)
  {
    0 <= begin <= end <= |data| && EscapeClosed(data[begin..end])
  }

  ghost predicate GoodTree(data: Bytes, s: Span)
    decreases s
  {
    GoodSpan(data, s.begin, s.end) && forall k :: 0 <= k < |s.children| ==> GoodTree(data, s.children[k])
  }

  /** An open node at position i: with no child yet its properties run up to i. */
  ghost predicate GoodOpen(data: Bytes, o: OpenNode, i: int)
  {
    GoodSpan(data, o.begin, if o.kids == [] then i else o.end) &&
    forall k :: 0 <= k < |o.kids| ==> GoodTree(data, o.kids[k])
  }

  ghost predicate GoodBelow(data: Bytes, o: OpenNode)
  {
    GoodSpan(data, o.begin, o.end) && forall k :: 0 <= k < |o.kids| ==> GoodTree(data, o.kids[k])
  }

  ghost predicate GoodStack(data: Bytes, stack: seq<OpenNode>, i: int)
  {
    (forall k :: 0 <= k < |stack| - 1 ==> GoodBelow(data, stack[k])) &&
    (stack != [] ==> GoodOpen(data, stack[|stack| - 1], i))
  }

  lemma {:induction false} Slices(data: Bytes, a: int, b: int, c: int)
    requires 0 <= a <= b <= c <= |data|
    ensures data[a..b] + data[b..c] == data[a..c]
  {
  }

  lemma {:induction false} GoodExtends(data: Bytes, stack: seq<OpenNode>, i: int, n: int)
    requires GoodStack(data, stack, i) && 0 <= i <= i + n <= |data| && EscapeClosed(data[i..i + n])
    ensures GoodStack(data, stack, i + n)
  {
    if stack != [] && stack[|stack| - 1].kids == [] {
      var b := stack[|stack| - 1].begin;
      EscapeClosedAppend(data[b..i], data[i..i + n]);
      Slices(data, b, i, i + n);
    }
  }

  lemma {:induction false} GoodStart(data: Bytes, i: nat, stack: seq<OpenNode>)
    requires i + 1 < |data| && stack != [] && GoodStack(data, stack, i)
    ensures var n := |stack|;
      GoodStack(data, stack[..n - 1] + [Opened(stack[n - 1], i), OpenNode(data[i + 1], i + 2, 0, [])], i + 2)
  {
    assert data[i + 2..i + 2] == [];
  }

  lemma {:induction false} GoodEnd(data: Bytes, i: nat, stack: seq<OpenNode>)
    requires i < |data| && |stack| > 1 && GoodStack(data, stack, i)
    ensures var n := |stack|;
      GoodStack(data, stack[..n - 2] + [Attach(stack[n - 2], Close(stack[n - 1], i))], i + 1)
  {
    assert GoodBelow(data, stack[|stack| - 2]);
    assert GoodTree(data, Close(stack[|stack| - 1], i));
  }

  lemma {:induction false} SpansStayGood(data: Bytes, i: nat, stack: seq<OpenNode>, root: Span)
    requires i <= |data| && GoodStack(data, stack, i) && (stack == [] ==> GoodTree(data, root))
    ensures var r := Parse(data, i, stack, root); r.Parsed? ==> GoodTree(data, r.root)
    decreases |data| - i
  {
    var n := |stack|;
    if i == |data| {
    } else if data[i] == START {
      if n > 0 && i + 1 < |data| {
        GoodStart(data, i, stack);
        SpansStayGood(data, i + 2, stack[..n - 1] + [Opened(stack[n - 1], i), OpenNode(data[i + 1], i + 2, 0, [])],
          root);
      }
    } else if data[i] == END {
      if n == 1 {
        SpansStayGood(data, i + 1, [], Close(stack[0], i));
      } else if n > 1 {
        GoodEnd(data, i, stack);
        SpansStayGood(data, i + 1, stack[..n - 2] + [Attach(stack[n - 2], Close(stack[n - 1], i))], root);
      }
    } else if data[i] == ESCAPE {
      if i + 1 < |data| {
        assert data[i..i + 2][2..] == [];
        GoodExtends(data, stack, i, 2);
        SpansStayGood(data, i + 2, stack, root);
      }
    } else {
      assert data[i..i + 1][1..] == [];
      GoodExtends(data, stack, i, 1);
      SpansStayGood(data, i + 1, stack, root);
    }
  }

  /** Every span of an accepted file can be read by getProps: in bounds, no bracket inside, no escape left over. */
  lemma {:induction false} SpansAreClosed(file: Bytes)
    requires |file| > MINIMAL_SIZE && ParseFile(file).Parsed?
    ensures GoodTree(file, ParseFile(file).root)
  {
    assert file[6..6] == [];
    SpansStayGood(file, 6, [OpenNode(file[5], 6, 0, [])], NoSpan());
  }
}
