/** What becomes of a name that would have to be escaped (src/io/filestream.cpp: getString, read).

    The raw bytes of a name are taken as they are. What is left of its encoding stands in front
    of the numbers that follow, whose reads skip one escape byte before every byte.
  */
module NameBytes {
  import opened OtbFormat
  import opened FileStream

  function Escapes(k: nat): (r: Bytes)
    ensures |r| == k && forall i :: 0 <= i < k ==> r[i] == ESCAPE
  {
    seq(k, i => ESCAPE)
  }

  lemma {:induction false} EscapeAppend(a: Bytes, b: Bytes)
    ensures Escape(a + b) == Escape(a) + Escape(b)
  {
    if a == [] {
      assert a + b == b;
    } else {
      assert (a + b)[1..] == a[1..] + b;
      EscapeAppend(a[1..], b);
    }
  }

  lemma {:induction false} EscapesTwice(k: nat)
    ensures Escape(Escapes(k)) == Escapes(k + k)
  {
    if k > 0 {
      assert Escapes(k)[1..] == Escapes(k - 1);
      EscapesTwice(k - 1);
      assert Escapes(k + k) == [ESCAPE, ESCAPE] + Escapes(k - 1 + (k - 1));
    }
  }

  // ----- names that are read as they are -----

  /** Nothing to escape, but for escape bytes at the end. */
  predicate PlainThenEscapes(name: Bytes)
  {
    name == [] || if name[0] < 0xFD then PlainThenEscapes(name[1..]) else name == Escapes(|name|)
  }

  /** Nothing to escape but the last byte. */
  predicate EscapeLast(name: Bytes)
  {
    name != [] && Plain(name[..|name| - 1]) && name[|name| - 1] == ESCAPE
  }

  /** The encoding begins with the name itself exactly for such names, and what is left are escape bytes. */
  lemma {:induction false} NamePrefix(name: Bytes)
    ensures |Escape(name)| >= |name|
    ensures Escape(name)[..|name|] == name <==> PlainThenEscapes(name)
    ensures PlainThenEscapes(name) ==> Escape(name)[|name|..] == Escapes(|Escape(name)| - |name|)
  {
    EscapeLength(name);
    if name != [] {
      if name[0] < 0xFD {
        NamePrefix(name[1..]);
        var e := Escape(name[1..]);
        assert Escape(name) == [name[0]] + e;
        assert Escape(name)[..|name|] == [name[0]] + e[..|name| - 1] && Escape(name)[|name|..] == e[|name| - 1..];
        assert name == [name[0]] + name[1..];
      } else if name == Escapes(|name|) {
        EscapesTwice(|name|);
      } else {
        EarlyEscape(name);
      }
    }
  }

  /** Before a byte that is no escape byte the encoding holds one escape byte more. */
  lemma {:induction false} EarlyEscape(name: Bytes)
    requires name != [] && name[0] >= 0xFD && name != Escapes(|name|)
    ensures |Escape(name)| >= |name| && Escape(name)[..|name|] != name
  {
    EscapeLength(name);
    var i: nat := FirstOther(name);
    EscapeThere(name, i);
    hide Escape, Escapes;
    assert Escape(name)[..|name|][i] == Escape(name)[i];
  }

  /** Behind i escape bytes comes another one. */
  lemma {:induction false} EscapeThere(name: Bytes, i: nat)
    requires i < |name| && name[..i] == Escapes(i) && name[0] >= 0xFD && |Escape(name)| >= |name|
    ensures Escape(name)[i] == ESCAPE
  {
    if i > 0 {
      hide Escape;
      assert name == Escapes(i) + name[i..];
      EscapeAppend(Escapes(i), name[i..]);
      EscapesTwice(i);
    }
  }

  lemma {:induction false} FirstOther(name: Bytes) returns (i: nat)
    requires name != Escapes(|name|)
    ensures i < |name| && name[i] != ESCAPE && name[..i] == Escapes(i)
  {
    assert name != [];
    if name[0] != ESCAPE {
      i := 0;
    } else {
      assert name == [ESCAPE] + name[1..] && Escapes(|name|) == [ESCAPE] + Escapes(|name| - 1);
      var j := FirstOther(name[1..]);
      i := j + 1;
      assert name[..i] == [ESCAPE] + name[1..][..j];
    }
  }

  lemma {:induction false} PlainSplit(x: byte, s: Bytes)
    ensures Plain([x] + s) <==> x < 0xFD && Plain(s)
  {
    if x < 0xFD && Plain(s) {
      assert forall k :: 0 < k < |[x] + s| ==> ([x] + s)[k] == s[k - 1];
    }
    if Plain([x] + s) {
      assert ([x] + s)[0] == x;
      assert forall k :: 0 <= k < |s| ==> s[k] == ([x] + s)[k + 1];
    }
  }

  /** Exactly one escape byte is left over. */
  lemma {:induction false} OneLeft(name: Bytes)
    ensures PlainThenEscapes(name) && |Escape(name)| == |name| + 1 <==> EscapeLast(name)
  {
    if name != [] {
      assert Escape(name) == (if name[0] >= 0xFD then [ESCAPE, name[0]] else [name[0]]) + Escape(name[1..]);
      EscapeLength(name[1..]);
      if |name| > 1 {
        assert name[..|name| - 1] == [name[0]] + name[1..][..|name| - 2];
        PlainSplit(name[0], name[1..][..|name| - 2]);
        assert name[1..][0] == name[1];
      }
      if name[0] < 0xFD {
        OneLeft(name[1..]);
      }
    }
  }

  // ----- what follows such a name -----

  /** The first byte that is no escape byte exists and needs no escape. */
  predicate SettlesLow(v: Bytes)
  {
    v != [] && (v[0] < ESCAPE || (v[0] == ESCAPE && SettlesLow(v[1..])))
  }

  lemma {:induction false} EscapedBounds(data: Bytes, c: Cursor, n: nat)
    requires Escaped(data, c, n).Done?
    ensures var r := Escaped(data, c, n);
      |r.value| == n && c.pos + n <= r.c.pos && r.c.nodes == c.nodes && (n > 0 ==> r.c.pos <= |data|)
    decreases n
  {
    if n > 0 {
      var p := if c.pos < |data| && data[c.pos] == ESCAPE then c.pos + 1 else c.pos;
      EscapedBounds(data, c.(pos := p + 1), n - 1);
    }
  }

  /** n bytes and then m bytes. */
  lemma {:induction false} EscapedInTwo(data: Bytes, c: Cursor, n: nat, m: nat)
    ensures Escaped(data, c, n).Fail? ==> Escaped(data, c, n + m).Fail?
    ensures var first := Escaped(data, c, n);
      first.Done? ==> Escaped(data, c, n + m) == Prefixed(first.value, Escaped(data, first.c, m))
    decreases n
  {
    if n > 0 {
      var p := if c.pos < |data| && data[c.pos] == ESCAPE then c.pos + 1 else c.pos;
      if p < |data| {
        var next := c.(pos := p + 1);
        EscapedInTwo(data, next, n - 1, m);
        var first := Escaped(data, next, n - 1);
        if first.Done? {
          var rest := Escaped(data, first.c, m);
          assert rest.Done? ==> [data[p]] + (first.value + rest.value) == [data[p]] + first.value + rest.value;
        }
      }
    } else {
      var rest := Escaped(data, c, m);
      assert rest.Done? ==> [] + rest.value == rest.value;
    }
  }

  /** A byte behind an escape byte. */
  lemma {:induction false} ReadTwo(data: Bytes, c: Cursor, x: byte, rest: Bytes, n: nat)
    requires EncodedAt(data, c.pos, [ESCAPE, x] + rest) && n > 0
    ensures EncodedAt(data, c.pos + 2, rest)
    ensures Escaped(data, c, n) == Prefixed([x], Escaped(data, c.(pos := c.pos + 2), n - 1))
  {
    var code := [ESCAPE, x] + rest;
    assert data[c.pos..c.pos + |code|][0] == ESCAPE && data[c.pos..c.pos + |code|][1] == x;
    EncodedSplit(data, c.pos, [ESCAPE, x], rest);
  }

  lemma {:induction false} ReadOne(data: Bytes, c: Cursor, x: byte, rest: Bytes, n: nat)
    requires EncodedAt(data, c.pos, [x] + rest) && n > 0 && x != ESCAPE
    ensures EncodedAt(data, c.pos + 1, rest)
    ensures Escaped(data, c, n) == Prefixed([x], Escaped(data, c.(pos := c.pos + 1), n - 1))
  {
    var code := [x] + rest;
    assert data[c.pos..c.pos + |code|][0] == x;
    EncodedSplit(data, c.pos, [x], rest);
  }

  /** The encoding of v with k escape bytes in front. */
  function Behind(k: nat, v: Bytes): Bytes
  {
    Escapes(k) + Escape(v)
  }

  lemma {:induction false} BehindTwo(k: nat, v: Bytes)
    requires k >= 2
    ensures Behind(k, v) == [ESCAPE, ESCAPE] + Behind(k - 2, v)
  {
    assert Escapes(k) == [ESCAPE, ESCAPE] + Escapes(k - 2);
  }

  lemma {:induction false} BehindNone(v: Bytes)
    ensures Behind(0, v) == Escape(v)
    ensures v != [] ==> Behind(0, v) == (if v[0] < 0xFD then [v[0]] else [ESCAPE, v[0]]) + Behind(0, v[1..])
  {
    hide Escape;
    assert v != [] ==> Escape(v) == (if v[0] < 0xFD then [v[0]] else [ESCAPE, v[0]]) + Escape(v[1..]) by {
      EscapeHead(v);
    }
  }

  lemma {:induction false} EscapeHead(v: Bytes)
    ensures v != [] ==> Escape(v) == (if v[0] < 0xFD then [v[0]] else [ESCAPE, v[0]]) + Escape(v[1..])
    ensures v == [] ==> Escape(v) == []
  {
  }

  lemma {:induction false} BehindOne(v: Bytes)
    ensures |Behind(1, v)| == 1 + |Escape(v)|
    ensures v != [] && v[0] < ESCAPE ==> Behind(1, v) == [ESCAPE, v[0]] + Behind(0, v[1..])
    ensures v != [] && v[0] == ESCAPE ==> Behind(1, v) == [ESCAPE, ESCAPE] + Behind(1, v[1..])
    ensures v != [] && v[0] > ESCAPE ==> Behind(1, v) == [ESCAPE, ESCAPE] + ([v[0]] + Behind(0, v[1..]))
    ensures v == [] ==> Behind(1, v) == [ESCAPE]
  {
    hide Escape;
    EscapeHead(v);
  }

  /** Behind one escape byte the encoded bytes are read back exactly if the first one that is no escape byte needs
      none. */
  lemma {:induction false} AfterOne(data: Bytes, c: Cursor, v: Bytes)
    requires EncodedAt(data, c.pos, Behind(1, v))
    ensures Escaped(data, c, |v|) == Done(v, c.(pos := c.pos + |Behind(1, v)|)) <==> SettlesLow(v)
    decreases |v|
  {
    hide Escape, EncodedAt, Behind, Escapes;
    BehindOne(v);
    if v != [] {
      hide Escaped;
      var w, next := v[1..], c.(pos := c.pos + 2);
      BehindNone(w);
      assert v == [v[0]] + w;
      if v[0] < ESCAPE {
        ReadTwo(data, c, v[0], Behind(0, w), |v|);
        EscapedInverts(data, next, w);
      } else if v[0] == ESCAPE {
        ReadTwo(data, c, ESCAPE, Behind(1, w), |v|);
        AfterOne(data, next, w);
      } else {
        ReadTwo(data, c, ESCAPE, [v[0]] + Behind(0, w), |v|);
      }
    }
  }

  /** Fewer reads than encoded bytes do not get to the end. */
  lemma {:induction false} StaysBehindNone(data: Bytes, c: Cursor, v: Bytes, n: nat)
    requires EncodedAt(data, c.pos, Behind(0, v)) && n < |v| && Escaped(data, c, n).Done?
    ensures Escaped(data, c, n).c.pos < c.pos + |Behind(0, v)|
    decreases n
  {
    hide Escape, EncodedAt, Behind, Escapes, Escaped;
    BehindNone(v);
    if n == 0 {
      NoReads(data, c);
    } else if v[0] < 0xFD {
      ReadOne(data, c, v[0], Behind(0, v[1..]), n);
      StaysBehindNone(data, c.(pos := c.pos + 1), v[1..], n - 1);
    } else {
      ReadTwo(data, c, v[0], Behind(0, v[1..]), n);
      StaysBehindNone(data, c.(pos := c.pos + 2), v[1..], n - 1);
    }
  }

  /** Nor do they behind one escape byte. */
  lemma {:induction false} StaysBehindOne(data: Bytes, c: Cursor, v: Bytes, n: nat)
    requires EncodedAt(data, c.pos, Behind(1, v)) && n < |v| && Escaped(data, c, n).Done?
    ensures Escaped(data, c, n).c.pos < c.pos + |Behind(1, v)|
    decreases n
  {
    hide Escape, EncodedAt, Behind, Escapes, Escaped;
    BehindOne(v);
    var w, next := v[1..], c.(pos := c.pos + 2);
    if n == 0 {
      NoReads(data, c);
    } else if v[0] < ESCAPE {
      ReadTwo(data, c, v[0], Behind(0, w), n);
      StaysBehindNone(data, next, w, n - 1);
    } else if v[0] == ESCAPE {
      ReadTwo(data, c, ESCAPE, Behind(1, w), n);
      StaysBehindOne(data, next, w, n - 1);
    } else {
      ReadTwo(data, c, ESCAPE, [v[0]] + Behind(0, w), n);
      if n > 1 {
        ReadOne(data, next, v[0], Behind(0, w), n - 1);
        StaysBehindNone(data, c.(pos := c.pos + 3), w, n - 2);
      } else {
        NoReads(data, next);
      }
    }
  }

  /** As many reads behind two escape bytes or more do not either. */
  lemma {:induction false} StaysBehind(data: Bytes, c: Cursor, k: nat, v: Bytes, n: nat)
    requires EncodedAt(data, c.pos, Behind(k, v)) && n <= |v| && (k >= 2 || n < |v|)
    requires Escaped(data, c, n).Done?
    ensures Escaped(data, c, n).c.pos < c.pos + |Behind(k, v)|
    decreases n
  {
    hide Escape, EncodedAt, Behind, Escapes, Escaped;
    if k == 0 {
      StaysBehindNone(data, c, v, n);
    } else if k == 1 {
      StaysBehindOne(data, c, v, n);
    } else {
      BehindTwo(k, v);
      if n == 0 {
        NoReads(data, c);
      } else {
        ReadTwo(data, c, ESCAPE, Behind(k - 2, v), n);
        StaysBehind(data, c.(pos := c.pos + 2), k - 2, v, n - 1);
      }
    }
  }

  lemma {:induction false} NoReads(data: Bytes, c: Cursor)
    ensures Escaped(data, c, 0) == Done([], c)
  {
  }

  /** What is left over is harmless exactly if it is nothing, or one escape byte in front of bytes of that kind. */
  lemma {:induction false} LeftOversIff(data: Bytes, c: Cursor, k: nat, v: Bytes)
    requires EncodedAt(data, c.pos, Behind(k, v))
    ensures Escaped(data, c, |v|) == Done(v, c.(pos := c.pos + |Behind(k, v)|)) <==>
      k == 0 || (k == 1 && SettlesLow(v))
  {
    hide Escape, EncodedAt, Behind, Escapes, Escaped;
    if k == 0 {
      BehindNone(v);
      EscapedInverts(data, c, v);
    } else if k == 1 {
      AfterOne(data, c, v);
    } else if Escaped(data, c, |v|).Done? {
      StaysBehind(data, c, k, v, |v|);
    }
  }
}
