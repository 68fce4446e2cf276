/** The OTB file format: escaped, bracketed byte streams (src/io/fileloader.hpp).

    The encoder is the specification: a node is START, its type, its escaped
    properties, its children and END. The type is one raw byte, never escaped.
  */
module OtbFormat {

  type byte = b: int | 0 <= b < 256
  type Bytes = seq<byte>

  const ESCAPE: byte := 0xFD
  const START: byte := 0xFE
  const END: byte := 0xFF

  datatype Tree = Tree(ntype: byte, props: Bytes, children: seq<Tree>)

  /** What the parser records: positions of the escaped properties in the file. */
  datatype Span = Span(ntype: byte, begin: int, end: int, children: seq<Span>)

  function Escape(s: Bytes): Bytes
  {
    if s == [] then [] else (if s[0] >= 0xFD then [ESCAPE, s[0]] else [s[0]]) + Escape(s[1..])
  }

  function Encode(t: Tree): (r: Bytes)
    ensures |r| >= 3
  {
    [START, t.ntype] + Escape(t.props) + EncodeAll(t.children) + [END]
  }

  function EncodeAll(ts: seq<Tree>): Bytes
  {
    if ts == [] then [] else Encode(ts[0]) + EncodeAll(ts[1..])
  }

  /** Removes escape bytes; `escaped` tells whether the byte before s was one. */
  function Unescape(s: Bytes, escaped: bool): Bytes
  {
    if s == [] then []
    else if s[0] == ESCAPE && !escaped then Unescape(s[1..], true)
    else [s[0]] + Unescape(s[1..], false)
  }

  /** No unescaped START or END inside, no ESCAPE left dangling. */
  predicate EscapeClosed(s: Bytes)
  {
    s == [] ||
    (s[0] == ESCAPE && |s| >= 2 && EscapeClosed(s[2..])) ||
    (s[0] < 0xFD && EscapeClosed(s[1..]))
  }

  lemma {:induction false} EscapeClosedAppend(s: Bytes, t: Bytes)
    requires EscapeClosed(s) && EscapeClosed(t)
    ensures EscapeClosed(s + t)
    decreases |s|
  {
    if s == [] {
      assert s + t == t;
    } else if s[0] == ESCAPE {
      EscapeClosedAppend(s[2..], t);
      assert (s + t)[2..] == s[2..] + t;
    } else {
      EscapeClosedAppend(s[1..], t);
      assert (s + t)[1..] == s[1..] + t;
    }
  }

  lemma {:induction false} EscapeIsClosed(s: Bytes)
    ensures EscapeClosed(Escape(s))
  {
    if s != [] {
      EscapeIsClosed(s[1..]);
      var head: Bytes := if s[0] >= 0xFD then [ESCAPE, s[0]] else [s[0]];
      assert EscapeClosed(head);
      EscapeClosedAppend(head, Escape(s[1..]));
    }
  }

  /** Reading the properties back gives them, whatever bytes they hold. */
  lemma {:induction false} UnescapeInvertsEscape(s: Bytes)
    ensures Unescape(Escape(s), false) == s
  {
    if s != [] {
      UnescapeInvertsEscape(s[1..]);
      var rest := Escape(s[1..]);
      if s[0] >= 0xFD {
        assert Escape(s) == [ESCAPE, s[0]] + rest;
        assert Escape(s)[1..] == [s[0]] + rest;
        assert Escape(s)[1..][1..] == rest;
      } else {
        assert Escape(s) == [s[0]] + rest;
        assert Escape(s)[1..] == rest;
      }
    }
  }

  /** Where the parser finds t when its encoding starts at position i. */
  function Layout(t: Tree, i: nat): Span
  {
    var e := i + 2 + |Escape(t.props)|;
    Span(t.ntype, i + 2, e, LayoutAll(t.children, e))
  }

  function LayoutAll(ts: seq<Tree>, i: nat): (r: seq<Span>)
    ensures |r| == |ts|
  {
    if ts == [] then [] else [Layout(ts[0], i)] + LayoutAll(ts[1..], i + |Encode(ts[0])|)
  }

  /** The tree a span stands for: getProps on every node. */
  function Decode(data: Bytes, s: Span): Tree
  {
    Tree(s.ntype,
         if 0 <= s.begin <= s.end <= |data| then Unescape(data[s.begin..s.end], false) else [],
         DecodeAll(data, s.children))
  }

  function DecodeAll(data: Bytes, ss: seq<Span>): (r: seq<Tree>)
  {
    if ss == [] then [] else [Decode(data, ss[0])] + DecodeAll(data, ss[1..])
  }

  predicate EncodedAt(data: Bytes, i: int, code: Bytes)
  {
    0 <= i <= i + |code| <= |data| && data[i..i + |code|] == code
  }

  lemma {:induction false} EncodedSplit(data: Bytes, i: int, a: Bytes, b: Bytes)
    requires EncodedAt(data, i, a + b)
    ensures EncodedAt(data, i, a) && EncodedAt(data, i + |a|, b)
  {
    assert data[i..i + |a|] == (a + b)[..|a|];
    assert data[i + |a|..i + |a| + |b|] == (a + b)[|a|..];
  }

  lemma {:induction false} EncodedNode(data: Bytes, i: int, t: Tree)
    requires EncodedAt(data, i, Encode(t))
    ensures var e := i + 2 + |Escape(t.props)|; var c := e + |EncodeAll(t.children)|;
      EncodedAt(data, i, [START, t.ntype]) && EncodedAt(data, i + 2, Escape(t.props)) &&
      EncodedAt(data, e, EncodeAll(t.children)) && c + 1 == i + |Encode(t)| && c < |data| && data[c] == END &&
      data[i] == START && data[i + 1] == t.ntype
  {
    EncodedSplit(data, i, [START, t.ntype] + Escape(t.props) + EncodeAll(t.children), [END]);
    EncodedSplit(data, i, [START, t.ntype] + Escape(t.props), EncodeAll(t.children));
    EncodedSplit(data, i, [START, t.ntype], Escape(t.props));
    var c := i + 2 + |Escape(t.props)| + |EncodeAll(t.children)|;
    assert data[c] == data[c..c + 1][0];
    assert data[i] == data[i..i + 2][0] && data[i + 1] == data[i..i + 2][1];
  }

  lemma {:induction false} DecodeSpan(data: Bytes, s: Span, t: Tree)
    requires s.ntype == t.ntype && 0 <= s.begin <= s.end <= |data|
    requires Unescape(data[s.begin..s.end], false) == t.props && DecodeAll(data, s.children) == t.children
    ensures Decode(data, s) == t
  {
    hide Unescape, DecodeAll;
  }

  lemma {:induction false} DecodeNode(data: Bytes, i: nat, t: Tree)
    requires EncodedAt(data, i, Encode(t))
    requires DecodeAll(data, LayoutAll(t.children, i + 2 + |Escape(t.props)|)) == t.children
    ensures Decode(data, Layout(t, i)) == t
  {
    var e := i + 2 + |Escape(t.props)|;
    assert Layout(t, i) == Span(t.ntype, i + 2, e, LayoutAll(t.children, e));
    hide Encode, EncodeAll, Escape, Unescape, LayoutAll, DecodeAll, Decode, Layout;
    EncodedNode(data, i, t);
    assert data[i + 2..e] == Escape(t.props) && e <= |data|;
    UnescapeInvertsEscape(t.props);
    DecodeSpan(data, Layout(t, i), t);
  }

  /** Decoding the layout of an encoded tree gives the tree back. */
  lemma {:induction false} DecodeInvertsLayout(data: Bytes, i: nat, t: Tree)
    requires EncodedAt(data, i, Encode(t))
    ensures Decode(data, Layout(t, i)) == t
    decreases t
  {
    hide *;
    EncodedNode(data, i, t);
    DecodeAllInvertsLayout(data, i + 2 + |Escape(t.props)|, t.children);
    DecodeNode(data, i, t);
  }

  lemma {:induction false} DecodeAllInvertsLayout(data: Bytes, i: nat, ts: seq<Tree>)
    requires EncodedAt(data, i, EncodeAll(ts))
    ensures DecodeAll(data, LayoutAll(ts, i)) == ts
    decreases ts
  {
    if ts != [] {
      EncodedSplit(data, i, Encode(ts[0]), EncodeAll(ts[1..]));
      DecodeInvertsLayout(data, i, ts[0]);
      DecodeAllInvertsLayout(data, i + |Encode(ts[0])|, ts[1..]);
    }
  }
}
