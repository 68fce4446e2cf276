/** Property streams (src/io/fileloader.hpp: PropStream, PropWriteStream): the bytes in
    the nodes of an OTB file, written and read field by field.
  */
module PropStream {
  import opened Options
  import opened OtbFormat
  import F = FileStream
  import OtbLoader
  import OtbTheorems

  const MAX_STRING: nat := 0xFFFF

  /** An unsigned integer of so many bytes, or a string. */
  datatype Field = Num(value: nat, width: nat) | Str(text: Bytes)

  datatype Shape = NumShape(width: nat) | StrShape

  function ShapeOf(f: Field): Shape
  {
    match f
    case Num(_, width) => NumShape(width)
    case Str(_) => StrShape
  }

  function Shapes(fs: seq<Field>): seq<Shape>
  {
    if fs == [] then [] else [ShapeOf(fs[0])] + Shapes(fs[1..])
  }

  predicate Sized(fs: seq<Field>)
  {
    forall k :: 0 <= k < |fs| && fs[k].Num? ==> fs[k].value < F.Power(fs[k].width)
  }

  /** A string too long for its 16-bit length is written as an empty one. */
  function Kept(f: Field): Field
  {
    if f.Str? && |f.text| > MAX_STRING then Str([]) else f
  }

  function KeptAll(fs: seq<Field>): seq<Field>
  {
    if fs == [] then [] else [Kept(fs[0])] + KeptAll(fs[1..])
  }

  function Written(f: Field): Bytes
  {
    match Kept(f)
    case Num(value, width) => F.LittleBytes(value, width)
    case Str(text) => F.LittleBytes(|text|, 2) + text
  }

  function WrittenAll(fs: seq<Field>): Bytes
  {
    if fs == [] then [] else Written(fs[0]) + WrittenAll(fs[1..])
  }

  // ----- reading -----

  /** A value, if there are bytes enough, and the position afterwards. */
  datatype Reading<T> = Reading(result: Option<T>, p: nat)

  function ReadNum(data: Bytes, p: nat, width: nat): Reading<nat>
    requires p <= |data|
  {
    if |data| - p < width then Reading(None, p) else Reading(Some(F.Little(data[p..p + width])), p + width)
  }

  /** The length stays consumed when the text is cut short. */
  function ReadText(data: Bytes, p: nat): Reading<Bytes>
    requires p <= |data|
  {
    var length := ReadNum(data, p, 2);
    if length.result.None? then Reading(None, p)
    else if |data| - length.p < length.result.value then Reading(None, length.p)
    else Reading(Some(data[length.p..length.p + length.result.value]), length.p + length.result.value)
  }

  /** A failed read of a string leaves the position exactly if not even its length was there. */
  lemma {:induction false} FailedTextStays(data: Bytes, p: nat)
    requires p <= |data| && ReadText(data, p).result.None?
    ensures ReadText(data, p).p == p <==> |data| - p < 2
  {
  }

  /** A string is read exactly if its length is there and as many bytes behind it. */
  lemma {:induction false} ReadTextIff(data: Bytes, p: nat)
    requires p <= |data|
    ensures |data| - p < 2 ==> ReadText(data, p).result == None
    ensures |data| - p >= 2 ==>
      var low: nat, high: nat := data[p], data[p + 1];
      (ReadText(data, p).result == None <==> |data| - p - 2 < low + 256 * high)
  {
    if |data| - p >= 2 {
      var bs := data[p..p + 2];
      var low: nat, high: nat := data[p], data[p + 1];
      assert bs[1..] == [data[p + 1]] && bs[1..][1..] == [];
      assert F.Little(bs[1..]) == high;
      assert F.Little(bs) == low + 256 * high;
    }
  }

  function ReadField(data: Bytes, p: nat, s: Shape): (r: Reading<Field>)
    requires p <= |data|
    ensures p <= r.p <= |data|
  {
    match s
    case NumShape(width) =>
      var r := ReadNum(data, p, width);
      Reading(if r.result.Some? then Some(Num(r.result.value, width)) else None, r.p)
    case StrShape =>
      var r := ReadText(data, p);
      Reading(if r.result.Some? then Some(Str(r.result.value)) else None, r.p)
  }

  function ReadAll(data: Bytes, p: nat, shapes: seq<Shape>): Reading<seq<Field>>
    requires p <= |data|
    decreases |shapes|
  {
    if shapes == [] then Reading(Some([]), p)
    else
      var first := ReadField(data, p, shapes[0]);
      if first.result.None? then Reading(None, first.p)
      else
        var rest := ReadAll(data, first.p, shapes[1..]);
        Reading(if rest.result.Some? then Some([first.result.value] + rest.result.value) else None, rest.p)
  }

  lemma {:induction false} FieldInverts(data: Bytes, p: nat, f: Field)
    requires EncodedAt(data, p, Written(f)) && Sized([f])
    ensures ReadField(data, p, ShapeOf(f)) == Reading(Some(Kept(f)), p + |Written(f)|)
  {
    assert [f][0] == f;
    match Kept(f)
    case Num(value, width) => F.LittleInverts(value, width);
    case Str(text) =>
      EncodedSplit(data, p, F.LittleBytes(|text|, 2), text);
      assert F.Power(2) == 0x100 * F.Power(1) && F.Power(1) == 0x100 * F.Power(0);
      F.LittleInverts(|text|, 2);
  }

  /** Reading with the shapes that were written gives back the fields, oversized strings empty, and uses up what was
      written. */
  lemma {:induction false} ReadsWhatWasWritten(data: Bytes, p: nat, fs: seq<Field>)
    requires EncodedAt(data, p, WrittenAll(fs)) && Sized(fs)
    ensures ReadAll(data, p, Shapes(fs)) == Reading(Some(KeptAll(fs)), p + |WrittenAll(fs)|)
    decreases |fs|
  {
    if fs != [] {
      EncodedSplit(data, p, Written(fs[0]), WrittenAll(fs[1..]));
      assert Sized([fs[0]]) && Sized(fs[1..]);
      FieldInverts(data, p, fs[0]);
      ReadsWhatWasWritten(data, p + |Written(fs[0])|, fs[1..]);
      assert Shapes(fs)[1..] == Shapes(fs[1..]);
      hide Written, WrittenAll, ReadField, Kept;
    }
  }

  predicate AllFit(fs: seq<Field>)
  {
    forall k :: 0 <= k < |fs| && fs[k].Str? ==> |fs[k].text| <= 65535
  }

  lemma {:induction false} KeptIffFit(fs: seq<Field>)
    ensures KeptAll(fs) == fs <==> AllFit(fs)
    decreases |fs|
  {
    if fs != [] {
      KeptIffFit(fs[1..]);
      assert KeptAll(fs)[0] == Kept(fs[0]) && KeptAll(fs)[1..] == KeptAll(fs[1..]);
      assert fs == [fs[0]] + fs[1..];
      if AllFit(fs) {
        assert AllFit(fs[1..]) && Kept(fs[0]) == fs[0];
      }
      if KeptAll(fs) == fs {
        assert Kept(fs[0]) == fs[0] && AllFit(fs[1..]);
        assert forall k :: 0 < k < |fs| ==> fs[k] == fs[1..][k - 1];
      }
    }
  }

  /** Fields survive writing and reading exactly if no string is longer than 65535 bytes. */
  lemma {:induction false} FieldsRoundTripIff(fs: seq<Field>)
    requires Sized(fs)
    ensures ReadAll(WrittenAll(fs), 0, Shapes(fs)) == Reading(Some(fs), |WrittenAll(fs)|) <==> AllFit(fs)
  {
    assert EncodedAt(WrittenAll(fs), 0, WrittenAll(fs));
    ReadsWhatWasWritten(WrittenAll(fs), 0, fs);
    KeptIffFit(fs);
  }

  /** Fields written into a node, put into a file, parsed and unescaped are read back. */
  lemma {:induction false} FieldsThroughFile(id: Bytes, ntype: byte, fs: seq<Field>, children: seq<Tree>)
    requires Sized(fs) && AllFit(fs) && |id| == OtbLoader.IDENTIFIER_SIZE
    requires |id + Encode(Tree(ntype, WrittenAll(fs), children))| > OtbLoader.MINIMAL_SIZE
    ensures var file := id + Encode(Tree(ntype, WrittenAll(fs), children));
      && OtbLoader.ParseFile(file).Parsed?
      && ReadAll(Decode(file, OtbLoader.ParseFile(file).root).props, 0, Shapes(fs)) ==
        Reading(Some(fs), |WrittenAll(fs)|)
  {
    OtbTheorems.RoundTrip(id, Tree(ntype, WrittenAll(fs), children));
    FieldsRoundTripIff(fs);
  }

  // ----- the streams -----

  class PropWriteStream {
    var buffer: Bytes

    constructor ()
      ensures buffer == []
    {
      buffer := [];
    }

    method Write(value: nat, width: nat)
      modifies this
      ensures buffer == old(buffer) + Written(Num(value, width))
    {
      var add := value;
      for i := 0 to width
        invariant add >= 0 && buffer + F.LittleBytes(add, width - i) == old(buffer) + F.LittleBytes(value, width)
      {
        buffer := buffer + [add % 0x100];
        add := add / 0x100;
      }
    }

    method WriteString(s: Bytes)
      modifies this
      ensures buffer == old(buffer) + Written(Str(s))
    {
      if |s| > MAX_STRING {
        Write(0, 2);
        return;
      }
      Write(|s|, 2);
      buffer := buffer + s;
    }
  }

  class PropReadStream {
    const data: Bytes
    var p: nat

    ghost predicate Valid()
      reads this
    {
      p <= |data|
    }

    constructor (data: Bytes)
      ensures Valid() && this.data == data && p == 0
    {
      this.data, p := data, 0;
    }

    /** A read that fails leaves the position. */
    method Read(width: nat) returns (result: Option<nat>)
      requires Valid()
      modifies this
      ensures Valid() && Reading(result, p) == ReadNum(data, old(p), width)
      ensures (result == None <==> |data| - old(p) < width) && p == old(p) + if result == None then 0 else width
    {
      if |data| - p < width {
        return None;
      }
      result := Some(F.Little(data[p..p + width]));
      p := p + width;
    }

    /** A string that is cut short leaves the position behind its length. */
    method ReadString() returns (result: Option<Bytes>)
      requires Valid()
      modifies this
      ensures Valid() && Reading(result, p) == ReadText(data, old(p))
    {
      var length := Read(2);
      if length.None? {
        return None;
      }
      if |data| - p < length.value {
        return None;
      }
      result := Some(data[p..p + length.value]);
      p := p + length.value;
    }

    method Skip(n: nat) returns (ok: bool)
      requires Valid()
      modifies this
      ensures Valid() && ok == (n <= |data| - old(p)) && p == if ok then old(p) + n else old(p)
    {
      if |data| - p < n {
        return false;
      }
      p := p + n;
      return true;
    }
  }
}
