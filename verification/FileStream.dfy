/** The map file cursor (src/io/filestream.cpp): reads that skip escape bytes inside
    nodes, and one-byte steps back when a node does not start or end.

    The functions say what a call answers and where the cursor then is; `Stream` is
    the object with the moving cursor. A read past the checked bound, which the source
    leaves undefined, is the error `Undefined`.
  */
module FileStream {
  import opened OtbFormat

  datatype Cursor = Cursor(pos: nat, nodes: nat)

  datatype Error = ReadFailed | StringTooBig | NodeNotRead | NodeNotEnded | Undefined

  /** A value and the cursor after it, or an exception. */
  datatype Step<T> = Done(value: T, c: Cursor) | Fail(error: Error)
  {
    predicate IsFailure()
    {
      Fail?
    }

    function PropagateFailure<U>(): Step<U>
      requires Fail?
    {
      Fail(error)
    }

    function Extract(): (T, Cursor)
      requires Done?
    {
      (value, c)
    }
  }

  const STRING_BOUND: nat := 8192

  // ----- integers -----

  function Little(bs: Bytes): nat
  {
    if bs == [] then 0 else bs[0] + 0x100 * Little(bs[1..])
  }

  function LittleBytes(v: nat, n: nat): (r: Bytes)
    ensures |r| == n
  {
    if n == 0 then [] else [v % 0x100] + LittleBytes(v / 0x100, n - 1)
  }

  function Power(n: nat): nat
  {
    if n == 0 then 1 else 0x100 * Power(n - 1)
  }

  lemma {:induction false} LittleInverts(v: nat, n: nat)
    requires v < Power(n)
    ensures Little(LittleBytes(v, n)) == v
  {
    if n > 0 {
      assert v / 0x100 < Power(n - 1);
      LittleInverts(v / 0x100, n - 1);
      assert LittleBytes(v, n)[1..] == LittleBytes(v / 0x100, n - 1);
    }
  }

  // ----- reads -----

  function U8(data: Bytes, c: Cursor): (r: Step<byte>)
    ensures r.Done? ==> c.pos < |data| && c.pos < r.c.pos
  {
    if c.pos + 1 > |data| then Fail(ReadFailed)
    else
      var p := if c.nodes > 0 && data[c.pos] == ESCAPE then c.pos + 1 else c.pos;
      if p >= |data| then Fail(Undefined) else Done(data[p], c.(pos := p + 1))
  }

  /** n bytes, each of which may have an escape byte in front. */
  function Escaped(data: Bytes, c: Cursor, n: nat): (r: Step<Bytes>)
    ensures r.Done? ==> c.pos <= r.c.pos
    decreases n
  {
    if n == 0 then Done([], c)
    else
      var p := if c.pos < |data| && data[c.pos] == ESCAPE then c.pos + 1 else c.pos;
      if p >= |data| then Fail(Undefined)
      else
        match Escaped(data, c.(pos := p + 1), n - 1)
        case Fail(e) => Fail(e)
        case Done(rest, c') => Done([data[p]] + rest, c')
  }

  function Raw(data: Bytes, c: Cursor, n: nat): Step<Bytes>
  {
    if c.pos + n > |data| then Fail(ReadFailed) else Done(data[c.pos..c.pos + n], c.(pos := c.pos + n))
  }

  function Number(data: Bytes, c: Cursor, n: nat): (r: Step<nat>)
    ensures r.Done? ==> c.pos <= r.c.pos
  {
    if c.pos + n > |data| then Fail(ReadFailed)
    else
      match if c.nodes > 0 then Escaped(data, c, n) else Raw(data, c, n)
      case Fail(e) => Fail(e)
      case Done(bs, c') => Done(Little(bs), c')
  }

  function Text(data: Bytes, c: Cursor): (r: Step<Bytes>)
    ensures r.Done? ==> c.pos <= r.c.pos
  {
    match Number(data, c, 2)
    case Fail(e) => Fail(e)
    case Done(len, c') =>
      if len == 0 then Done([], c') else if len < STRING_BOUND then Raw(data, c', len) else Fail(StringTooBig)
  }

  /** Conversion to uint32_t, for the node depth. */
  function Wrap32(n: int): nat
  {
    n % 0x1_0000_0000
  }

  function Start(data: Bytes, c: Cursor, ntype: byte): (r: Step<bool>)
    ensures r.Done? && r.value ==> c.pos < |data| && c.pos < r.c.pos
  {
    match U8(data, c)
    case Fail(e) => Fail(e)
    case Done(b, c1) =>
      if b == START then
        if ntype == 0 then Done(true, c1.(nodes := Wrap32(c1.nodes + 1)))
        else
          match U8(data, c1)
          case Fail(e) => Fail(e)
          case Done(t, c2) =>
            if t == ntype then Done(true, c2.(nodes := Wrap32(c2.nodes + 1))) else Done(false, c2.(pos := c2.pos - 2))
      else Done(false, c1.(pos := c1.pos - 1))
  }

  function Finish(data: Bytes, c: Cursor): (r: Step<bool>)
    ensures r.Done? && r.value ==> c.pos < |data| && c.pos < r.c.pos
  {
    match U8(data, c)
    case Fail(e) => Fail(e)
    case Done(b, c1) =>
      if b == END then Done(true, c1.(nodes := Wrap32(c1.nodes - 1))) else Done(false, c1.(pos := c1.pos - 1))
  }

  /** A failed attempt to start a node leaves the cursor where it was exactly when it skipped no escape byte. */
  lemma {:induction false} FailedStartStays(data: Bytes, c: Cursor, ntype: byte)
    requires Start(data, c, ntype).Done? && !Start(data, c, ntype).value
    ensures Start(data, c, ntype).c == c <==>
      c.nodes == 0 || (data[c.pos] != ESCAPE && !(data[c.pos] == START && data[c.pos + 1] == ESCAPE))
  {
  }

  lemma {:induction false} FailedFinishStays(data: Bytes, c: Cursor)
    requires Finish(data, c).Done? && !Finish(data, c).value
    ensures Finish(data, c).c == c <==> c.nodes == 0 || data[c.pos] != ESCAPE
  {
  }

  // ----- reads invert the encoding -----

  function EncodeNumber(v: nat, n: nat): Bytes
  {
    Escape(LittleBytes(v, n))
  }

  function EncodeText(s: Bytes): Bytes
  {
    EncodeNumber(|s|, 2) + Escape(s)
  }

  /** No byte that the encoding would have to escape. */
  predicate Plain(s: Bytes)
  {
    forall k :: 0 <= k < |s| ==> s[k] < 0xFD
  }

  lemma {:induction false} EscapedInverts(data: Bytes, c: Cursor, bs: Bytes)
    requires EncodedAt(data, c.pos, Escape(bs))
    ensures Escaped(data, c, |bs|) == Done(bs, c.(pos := c.pos + |Escape(bs)|))
    decreases |bs|
  {
    if bs != [] {
      var head: Bytes := if bs[0] >= 0xFD then [ESCAPE, bs[0]] else [bs[0]];
      EncodedSplit(data, c.pos, head, Escape(bs[1..]));
      assert data[c.pos] == data[c.pos..c.pos + |head|][0];
      assert bs[0] >= 0xFD ==> data[c.pos + 1] == data[c.pos..c.pos + |head|][1];
      var rest := c.(pos := c.pos + |head|);
      EscapedInverts(data, rest, bs[1..]);
      assert |bs| - 1 == |bs[1..]|;
      assert bs == [bs[0]] + bs[1..];
      assert Escape(bs) == head + Escape(bs[1..]);
    }
  }

  lemma {:induction false} EscapeLength(s: Bytes)
    ensures |Escape(s)| >= |s|
    ensures |Escape(s)| == |s| <==> Plain(s)
    ensures Plain(s) ==> Escape(s) == s
  {
    if s != [] {
      EscapeLength(s[1..]);
      assert Plain(s) <==> s[0] < 0xFD && Plain(s[1..]) by {
        if s[0] < 0xFD && Plain(s[1..]) {
          assert forall k :: 0 < k < |s| ==> s[k] == s[1..][k - 1];
        }
      }
    }
  }

  lemma {:induction false} NumberInverts(data: Bytes, c: Cursor, v: nat, n: nat)
    requires c.nodes > 0 && v < Power(n) && EncodedAt(data, c.pos, EncodeNumber(v, n))
    ensures Number(data, c, n) == Done(v, c.(pos := c.pos + |EncodeNumber(v, n)|))
  {
    EscapeLength(LittleBytes(v, n));
    EscapedInverts(data, c, LittleBytes(v, n));
    LittleInverts(v, n);
  }

  /** Reads that begin at the end of the file fail, and so do numbers cut short by it. */
  lemma {:induction false} ReadsEnd(data: Bytes, c: Cursor, n: nat, ntype: byte)
    ensures |data| - c.pos < n ==> Number(data, c, n) == Fail(ReadFailed)
    ensures c.pos >= |data| ==>
      U8(data, c) == Fail(ReadFailed) && Text(data, c) == Fail(ReadFailed) &&
      Start(data, c, ntype) == Fail(ReadFailed) && Finish(data, c) == Fail(ReadFailed)
  {
  }

  /** A longer text is refused. */
  lemma {:induction false} LongTextFails(data: Bytes, c: Cursor, s: Bytes)
    requires c.nodes > 0 && 8192 <= |s| < 0x1_0000 && EncodedAt(data, c.pos, EncodeText(s))
    ensures Text(data, c) == Fail(StringTooBig)
  {
    EncodedSplit(data, c.pos, EncodeNumber(|s|, 2), Escape(s));
    assert Power(2) == 0x1_0000;
    NumberInverts(data, c, |s|, 2);
  }

  /** A text comes back whole, with nothing left over, exactly when it is short of the bound and needs no escaping:
      getString does not unescape. */
  lemma {:induction false} TextInvertsIffPlain(data: Bytes, c: Cursor, s: Bytes)
    requires c.nodes > 0 && |s| < 0x1_0000 && EncodedAt(data, c.pos, EncodeText(s))
    ensures Text(data, c) == Done(s, c.(pos := c.pos + |EncodeText(s)|)) <==> |s| < 8192 && Plain(s)
  {
    EncodedSplit(data, c.pos, EncodeNumber(|s|, 2), Escape(s));
    assert Power(2) == 0x1_0000;
    NumberInverts(data, c, |s|, 2);
    EscapeLength(s);
  }

  // ----- the object -----

  class Stream {
    const data: Bytes
    var pos: nat
    var nodes: nat

    constructor (data: Bytes)
      ensures this.data == data && At() == Cursor(0, 0)
    {
      this.data := data;
      pos, nodes := 0, 0;
    }

    function At(): Cursor
      reads this
    {
      Cursor(pos, nodes)
    }

    method GetU8() returns (r: Step<byte>)
      modifies this
      ensures r == U8(data, old(At())) && (r.Done? ==> At() == r.c)
    {
      if pos + 1 > |data| {
        return Fail(ReadFailed);
      }
      if nodes > 0 && data[pos] == ESCAPE {
        pos := pos + 1;
      }
      if pos >= |data| {
        return Fail(Undefined);
      }
      var v := data[pos];
      pos := pos + 1;
      return Done(v, At());
    }

    /** read<T> with size bytes. */
    method Read(size: nat) returns (r: Step<nat>)
      modifies this
      ensures r == Number(data, old(At()), size) && (r.Done? ==> At() == r.c)
    {
      if pos + size > |data| {
        return Fail(ReadFailed);
      }
      var bytes: Bytes := [];
      if nodes > 0 {
        PrefixedNothing(Escaped(data, At(), size));
        for i := 0 to size
          invariant nodes == old(nodes) && |bytes| == i
          invariant Escaped(data, old(At()), size) == Prefixed(bytes, Escaped(data, At(), size - i))
        {
          ghost var before := At();
          if pos < |data| && data[pos] == ESCAPE {
            pos := pos + 1;
          }
          if pos >= |data| {
            return Fail(Undefined);
          }
          bytes := bytes + [data[pos]];
          pos := pos + 1;
          PrefixedStep(data, before, size - i, bytes[..i]);
        }
      } else {
        bytes := data[pos..pos + size];
        pos := pos + size;
      }
      assert bytes + [] == bytes;
      return Done(Little(bytes), At());
    }

    method GetString() returns (r: Step<Bytes>)
      modifies this
      ensures r == Text(data, old(At())) && (r.Done? ==> At() == r.c)
    {
      var len := Read(2);
      if len.Fail? {
        return Fail(len.error);
      }
      if len.value > 0 && len.value < STRING_BOUND {
        if pos + len.value > |data| {
          return Fail(ReadFailed);
        }
        var str := data[pos..pos + len.value];
        pos := pos + len.value;
        return Done(str, At());
      } else if len.value != 0 {
        return Fail(StringTooBig);
      }
      return Done([], At());
    }

    method Back()
      requires pos > 0
      modifies this
      ensures At() == old(Cursor(pos - 1, nodes))
    {
      pos := pos - 1;
    }

    method StartNode(ntype: byte) returns (r: Step<bool>)
      modifies this
      ensures r == Start(data, old(At()), ntype) && (r.Done? ==> At() == r.c)
    {
      var b := GetU8();
      if b.Fail? {
        return Fail(b.error);
      }
      if b.value == START {
        if ntype == 0 {
          nodes := Wrap32(nodes + 1);
          return Done(true, At());
        }
        var t := GetU8();
        if t.Fail? {
          return Fail(t.error);
        }
        if t.value == ntype {
          nodes := Wrap32(nodes + 1);
          return Done(true, At());
        }
        Back();
      }
      Back();
      return Done(false, At());
    }

    method EndNode() returns (r: Step<bool>)
      modifies this
      ensures r == Finish(data, old(At())) && (r.Done? ==> At() == r.c)
    {
      var b := GetU8();
      if b.Fail? {
        return Fail(b.error);
      }
      if b.value == END {
        nodes := Wrap32(nodes - 1);
        return Done(true, At());
      }
      Back();
      return Done(false, At());
    }
  }

  ghost function Prefixed(bs: Bytes, s: Step<Bytes>): Step<Bytes>
  {
    match s
    case Fail(e) => Fail(e)
    case Done(rest, c) => Done(bs + rest, c)
  }

  lemma {:induction false} PrefixedNothing(s: Step<Bytes>)
    ensures Prefixed([], s) == s
  {
    if s.Done? {
      assert [] + s.value == s.value;
    }
  }

  lemma {:induction false} PrefixedStep(data: Bytes, c: Cursor, n: nat, bs: Bytes)
    requires n > 0
    ensures var p := if c.pos < |data| && data[c.pos] == ESCAPE then c.pos + 1 else c.pos;
      p < |data| ==>
        Prefixed(bs, Escaped(data, c, n)) == Prefixed(bs + [data[p]], Escaped(data, c.(pos := p + 1), n - 1))
  {
    var p := if c.pos < |data| && data[c.pos] == ESCAPE then c.pos + 1 else c.pos;
    if p < |data| {
      var s := Escaped(data, c.(pos := p + 1), n - 1);
      if s.Done? {
        assert bs + ([data[p]] + s.value) == (bs + [data[p]]) + s.value;
      }
    }
  }
}
