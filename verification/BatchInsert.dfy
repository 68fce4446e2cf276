/** Batched INSERT statements (src/database/database.cpp: DBInsert; src/database/database.hpp).

    The rows collected so far are one text "(r1),(r2),...". It is sent in pieces that
    fit a size limit, cut at the last "),(" within the limit.
  */
module BatchInsert {

  const MAX_QUERY_SIZE: nat := 0x80_0000

  // ----- rows and their text -----

  function Wrapped(row: string): string
  {
    "(" + row + ")"
  }

  function Join(rows: seq<string>): (r: string)
    ensures rows != [] ==> |r| >= |rows[0]| + 2 && r[0] == '('
  {
    if rows == [] then ""
    else if |rows| == 1 then Wrapped(rows[0])
    else Wrapped(rows[0]) + "," + Join(rows[1..])
  }

  /** Position of the parenthesis that closes the k-th row. */
  function End(rows: seq<string>, k: nat): int
    requires k <= |rows|
  {
    |Join(rows[..k])| - 1
  }

  predicate SepAt(s: string, p: int)
  {
    0 <= p <= |s| - 3 && s[p] == ')' && s[p + 1] == ',' && s[p + 2] == '('
  }

  predicate Clean(row: string)
  {
    forall p :: 0 <= p < |row| ==> !SepAt(row, p)
  }

  predicate AllClean(rows: seq<string>)
  {
    forall k :: 0 <= k < |rows| ==> Clean(rows[k])
  }

  // ----- the cutting, on text -----

  /** std::string::rfind of "),(": the last one that starts at or before pos, or -1. */
  function RFind(s: string, pos: int): (r: int)
    ensures r == -1 || (0 <= r <= pos && SepAt(s, r))
    ensures forall p :: r < p <= pos ==> !SepAt(s, p)
    decreases pos + 1
  {
    if pos < 0 then -1 else if SepAt(s, pos) then pos else RFind(s, pos - 1)
  }

  /** The batches a text is cut into, and whether it was used up; the database takes the n-th query if accepts(n). */
  datatype Sent = Sent(batches: seq<string>, ok: bool)

  predicate Takes(accepts: nat -> bool, n: nat)
  {
    accepts(n)
  }

  function Batches(text: string, limit: nat, accepts: nat -> bool, n: nat): Sent
    decreases |text|
  {
    if text == "" then Sent([], true)
    else
      var p := if limit < |text| then RFind(text, limit) else |text| - 1;
      if p == -1 then Sent([], false)
      else if !Takes(accepts, n) then Sent([], false)
      else
        var rest := Batches(if limit < |text| then text[p + 2..] else "", limit, accepts, n + 1);
        Sent([text[..p + 1]] + rest.batches, rest.ok)
  }

  /** The batches hold whole rows, in order, from the first one on; all of them if complete. */
  ghost predicate Splits(rows: seq<string>, batches: seq<string>, complete: bool)
    decreases batches
  {
    if batches == [] then complete ==> rows == []
    else exists k :: 1 <= k <= |rows| && batches[0] == Join(rows[..k]) && Splits(rows[k..], batches[1..], complete)
  }

  /** Every row can be sent on its own. */
  predicate Fit(rows: seq<string>, limit: nat)
  {
    forall k :: 0 <= k < |rows| ==> |rows[k]| + (if k == |rows| - 1 then 2 else 1) <= limit
  }

  // ----- separators and rows -----

  lemma {:induction false} JoinSplit(rows: seq<string>, k: nat)
    requires 1 <= k < |rows|
    ensures Join(rows) == Join(rows[..k]) + "," + Join(rows[k..])
  {
    if k > 1 {
      assert rows[..k][1..] == rows[1..][..k - 1] && rows[1..][k - 1..] == rows[k..];
      JoinSplit(rows[1..], k - 1);
    } else {
      assert rows[..1] == [rows[0]];
    }
  }

  lemma {:induction false} EndShift(rows: seq<string>, k: nat)
    requires 1 <= k < |rows|
    ensures End(rows, k + 1) == |rows[0]| + 3 + End(rows[1..], k)
    ensures End(rows, 1) == |rows[0]| + 1
  {
    assert rows[..k + 1][1..] == rows[1..][..k];
    assert rows[..1] == [rows[0]];
  }

  /** With clean rows a separator of the joined text is a boundary between rows. */
  lemma {:induction false} SeparatorsAreBoundaries(rows: seq<string>, p: int)
    requires AllClean(rows) && SepAt(Join(rows), p)
    ensures exists k :: 1 <= k < |rows| && p == End(rows, k)
    decreases |rows|
  {
    var r := rows[0];
    var s := Join(rows);
    assert s == Wrapped(r) + s[|r| + 2..];
    if p <= |r| {
      assert p > 0 && s[p] == r[p - 1];
      assert p < |r| ==> s[p + 1] == r[p];
      assert p + 1 < |r| ==> s[p + 2] == r[p + 1];
      assert p + 1 < |r| ==> SepAt(r, p - 1);
      assert false;
    } else if p == |r| + 1 {
      assert rows[..1] == [r];
      assert p == End(rows, 1);
    } else {
      assert |rows| > 1 && p > |r| + 2;
      var rest := Join(rows[1..]);
      assert s == Wrapped(r) + "," + rest;
      assert SepAt(rest, p - |r| - 3);
      SeparatorsAreBoundaries(rows[1..], p - |r| - 3);
      var k :| 1 <= k < |rows[1..]| && p - |r| - 3 == End(rows[1..], k);
      EndShift(rows, k);
      assert p == End(rows, k + 1);
    }
  }

  lemma {:induction false} BoundariesAreSeparators(rows: seq<string>, k: nat)
    requires 1 <= k < |rows|
    ensures SepAt(Join(rows), End(rows, k)) && Join(rows)[..End(rows, k) + 1] == Join(rows[..k]) &&
      Join(rows)[End(rows, k) + 2..] == Join(rows[k..])
  {
    JoinSplit(rows, k);
    JoinEnds(rows[..k]);
  }

  lemma {:induction false} JoinEnds(rows: seq<string>)
    requires rows != []
    ensures Join(rows)[|Join(rows)| - 1] == ')'
  {
    if |rows| > 1 {
      JoinEnds(rows[1..]);
    }
  }

  lemma {:induction false} EndsIncrease(rows: seq<string>, j: nat, k: nat)
    requires j < k <= |rows|
    ensures End(rows, j) < End(rows, k)
  {
    if j > 0 {
      JoinSplit(rows[..k], j);
      assert rows[..k][..j] == rows[..j];
    }
  }

  // ----- what is sent -----

  /** One cut takes whole rows off the front. */
  lemma {:induction false} CutsAtRows(rows: seq<string>, limit: nat) returns (k: nat)
    requires rows != [] && AllClean(rows) && limit < |Join(rows)| && RFind(Join(rows), limit) != -1
    ensures 1 <= k < |rows| && RFind(Join(rows), limit) == End(rows, k)
  {
    SeparatorsAreBoundaries(rows, RFind(Join(rows), limit));
    k :| 1 <= k < |rows| && RFind(Join(rows), limit) == End(rows, k);
  }

  /** One batch more in front. */
  lemma {:induction false} SplitsStep(rows: seq<string>, k: nat, batches: seq<string>, complete: bool)
    requires 1 <= k <= |rows| && Splits(rows[k..], batches, complete)
    ensures Splits(rows, [Join(rows[..k])] + batches, complete)
  {
    var all := [Join(rows[..k])] + batches;
    assert all[1..] == batches;
  }

  lemma {:induction false} FirstBatchIs(rows: seq<string>, k: nat, limit: nat, accepts: nat -> bool, n: nat)
    requires 1 <= k < |rows| && limit < |Join(rows)| && RFind(Join(rows), limit) == End(rows, k)
    requires SepAt(Join(rows), End(rows, k)) && Join(rows)[..End(rows, k) + 1] == Join(rows[..k]) &&
      Join(rows)[End(rows, k) + 2..] == Join(rows[k..])
    ensures Batches(Join(rows), limit, accepts, n) == FirstBatch(rows, k, limit, accepts, n)
  {
    hide Join, RFind;
  }

  /** A text over the limit is cut after k whole rows, or not at all. */
  lemma {:induction false} BatchesStep(rows: seq<string>, limit: nat, accepts: nat -> bool, n: nat) returns (k: nat)
    requires rows != [] && AllClean(rows) && limit < |Join(rows)|
    ensures k == 0 ==> RFind(Join(rows), limit) == -1 && Batches(Join(rows), limit, accepts, n) == Sent([], false)
    ensures k < |rows| && AllClean(rows[k..]) && (k > 0 ==> RFind(Join(rows), limit) == End(rows, k))
    ensures k > 0 ==>
      End(rows, k) <= limit && Batches(Join(rows), limit, accepts, n) == FirstBatch(rows, k, limit, accepts, n)
  {
    if RFind(Join(rows), limit) == -1 {
      k := 0;
    } else {
      k := CutsAtRows(rows, limit);
      BoundariesAreSeparators(rows, k);
      FirstBatchIs(rows, k, limit, accepts, n);
      hide Join, RFind, SepAt, AllClean, Batches, FirstBatch;
    }
    hide Batches, FirstBatch;
    assert forall j :: 0 <= j < |rows| - k ==> rows[k..][j] == rows[j + k];
  }

  function FirstBatch(rows: seq<string>, k: nat, limit: nat, accepts: nat -> bool, n: nat): Sent
    requires k <= |rows|
  {
    var rest := Batches(Join(rows[k..]), limit, accepts, n + 1);
    if Takes(accepts, n) then Sent([Join(rows[..k])] + rest.batches, rest.ok) else Sent([], false)
  }

  /** None cut, none lost, none repeated. */
  lemma {:induction false} BatchesSplitRows(rows: seq<string>, limit: nat, accepts: nat -> bool, n: nat)
    requires AllClean(rows)
    ensures var s := Batches(Join(rows), limit, accepts, n); Splits(rows, s.batches, s.ok)
    decreases |rows|
  {
    if rows != [] {
      if limit < |Join(rows)| {
        var k := BatchesStep(rows, limit, accepts, n);
        hide Batches;
        if k > 0 && Takes(accepts, n) {
          var rest := Batches(Join(rows[k..]), limit, accepts, n + 1);
          BatchesSplitRows(rows[k..], limit, accepts, n + 1);
          SplitsStep(rows, k, rest.batches, rest.ok);
        }
      } else {
        assert rows[..|rows|] == rows && rows[|rows|..] == [];
        SplitsStep(rows, |rows|, [], true);
      }
    }
  }

  /** No batch is longer than the limit plus its closing parenthesis. */
  lemma {:induction false} BatchSizes(text: string, limit: nat, accepts: nat -> bool, n: nat)
    ensures NoneLonger(Batches(text, limit, accepts, n).batches, limit + 1)
    decreases |text|
  {
    hide Batches, NoneLonger;
    if Batches(text, limit, accepts, n).batches == [] {
      NoBatches(limit + 1);
    } else {
      var p, left := HeadBatch(text, limit, accepts, n);
      BatchSizes(left, limit, accepts, n + 1);
      OneMoreBatch(text[..p + 1], Batches(left, limit, accepts, n + 1).batches, limit + 1);
    }
  }

  /** The first batch, and the text left for the others. */
  lemma {:induction false} HeadBatch(text: string, limit: nat, accepts: nat -> bool, n: nat)
      returns (p: nat, left: string)
    requires Batches(text, limit, accepts, n).batches != []
    ensures p < |text| && p <= limit && |left| < |text|
    ensures Batches(text, limit, accepts, n).batches == [text[..p + 1]] + Batches(left, limit, accepts, n + 1).batches
  {
    p := if limit < |text| then RFind(text, limit) else |text| - 1;
    left := if limit < |text| then text[p + 2..] else "";
    hide RFind;
  }

  lemma {:induction false} NoBatches(size: nat)
    ensures NoneLonger([], size)
  {
  }

  predicate NoneLonger(batches: seq<string>, size: nat)
  {
    forall k :: 0 <= k < |batches| ==> |batches[k]| <= size
  }

  lemma {:induction false} OneMoreBatch(first: string, rest: seq<string>, size: nat)
    requires |first| <= size && NoneLonger(rest, size)
    ensures NoneLonger([first] + rest, size)
  {
  }

  ghost predicate TakesAll(accepts: nat -> bool)
  {
    forall n: nat :: Takes(accepts, n)
  }

  /** With a database that takes everything, all rows are sent exactly when each of them fits on its own. */
  lemma {:induction false} SentIffFit(rows: seq<string>, limit: nat, accepts: nat -> bool, n: nat)
    requires AllClean(rows) && TakesAll(accepts)
    ensures Batches(Join(rows), limit, accepts, n).ok <==> Fit(rows, limit)
    decreases |rows|
  {
    assert Takes(accepts, n);
    if rows != [] {
      if limit < |Join(rows)| {
        var k := BatchesStep(rows, limit, accepts, n);
        hide Batches;
        if k == 0 {
          NothingFits(rows, limit);
        } else {
          SentIffFit(rows[k..], limit, accepts, n + 1);
          FitSplit(rows, k, limit);
        }
      } else {
        ShortTextFits(rows, limit);
      }
    }
  }

  /** If no separator lies within the limit, the first row is too long. */
  lemma {:induction false} NothingFits(rows: seq<string>, limit: nat)
    requires rows != [] && limit < |Join(rows)| && RFind(Join(rows), limit) == -1
    ensures !Fit(rows, limit)
  {
    if |rows| > 1 {
      BoundariesAreSeparators(rows, 1);
      assert rows[..1] == [rows[0]];
      assert End(rows, 1) == |rows[0]| + 1;
    }
    assert |rows[0]| + (if |rows| == 1 then 2 else 1) > limit;
  }

  /** A text within the limit has rows within the limit. */
  lemma {:induction false} ShortTextFits(rows: seq<string>, limit: nat)
    requires |Join(rows)| <= limit
    ensures Fit(rows, limit)
  {
    if |rows| > 1 {
      ShortTextFits(rows[1..], limit);
      forall k | 0 <= k < |rows|
        ensures |rows[k]| + (if k == |rows| - 1 then 2 else 1) <= limit
      {
        assert k > 0 ==> rows[k] == rows[1..][k - 1];
      }
    }
  }

  /** Cutting after k rows leaves the question whether everything fits to the rest. */
  lemma {:induction false} FitSplit(rows: seq<string>, k: nat, limit: nat)
    requires 1 <= k < |rows| && End(rows, k) <= limit
    ensures Fit(rows, limit) <==> Fit(rows[k..], limit)
  {
    assert forall j :: 0 <= j < |rows| - k ==> rows[k..][j] == rows[j + k];
    assert |Join(rows[..k])| <= limit + 1;
    RowsUnder(rows[..k], limit + 1);
    if Fit(rows[k..], limit) {
      forall j | 0 <= j < |rows|
        ensures |rows[j]| + (if j == |rows| - 1 then 2 else 1) <= limit
      {
        if j < k {
          assert rows[..k][j] == rows[j];
        } else {
          assert rows[k..][j - k] == rows[j];
        }
      }
    }
  }

  lemma {:induction false} RowsUnder(rows: seq<string>, n: nat)
    requires |Join(rows)| <= n
    ensures forall j :: 0 <= j < |rows| ==> |rows[j]| + 2 <= n
  {
    if |rows| > 1 {
      RowsUnder(rows[1..], n);
      assert forall j :: 0 < j < |rows| ==> rows[j] == rows[1..][j - 1];
    }
  }

  // ----- rows with a separator inside -----

  lemma {:induction false} RFindHere(s: string, pos: nat)
    requires SepAt(s, pos)
    ensures RFind(s, pos) == pos
  {
  }

  /** Where row i starts in the joined text. */
  lemma {:induction false} RowInText(rows: seq<string>, i: nat)
    requires i < |rows|
    ensures var start := if i == 0 then 1 else End(rows, i) + 3;
      End(rows, i + 1) == start + |rows[i]| && start + |rows[i]| < |Join(rows)| &&
        Join(rows)[start..start + |rows[i]|] == rows[i]
  {
    hide Join;
    var before := if i == 0 then "" else Join(rows[..i]) + ",";
    assert rows[..i + 1] == rows[..i] + [rows[i]];
    JoinAppend(rows[..i], rows[i]);
    JoinPrefix(rows, i + 1);
    MiddleSlice(Join(rows), before, rows[i]);
  }

  lemma {:induction false} JoinPrefix(rows: seq<string>, k: nat)
    requires 1 <= k <= |rows|
    ensures Join(rows[..k]) <= Join(rows)
  {
    if k < |rows| {
      JoinSplit(rows, k);
    } else {
      assert rows[..k] == rows;
    }
  }

  lemma {:induction false} MiddleSlice(text: string, before: string, row: string)
    requires before + Wrapped(row) <= text
    ensures |before| + 1 + |row| < |text| && text[|before| + 1..|before| + 1 + |row|] == row
  {
    var front := before + Wrapped(row);
    assert front[|before| + 1..|before| + 1 + |row|] == row;
  }

  /** A row with a separator inside is cut in two under some limit. */
  lemma {:induction false} DirtyRowIsCut(rows: seq<string>, i: nat, p: nat, accepts: nat -> bool, n: nat)
      returns (limit: nat)
    requires i < |rows| && p < |rows[i]| && SepAt(rows[i], p) && Takes(accepts, n)
    ensures var s := Batches(Join(rows), limit, accepts, n); !Splits(rows, s.batches, s.ok)
  {
    var text := Join(rows);
    RowInText(rows, i);
    var start := if i == 0 then 1 else End(rows, i) + 3;
    limit := start + p;
    var row := rows[i];
    assert text[start..start + |row|][p] == row[p] && text[start..start + |row|][p + 1] == row[p + 1] &&
      text[start..start + |row|][p + 2] == row[p + 2];
    assert SepAt(text, limit);
    RFindHere(text, limit);
    var s := Batches(text, limit, accepts, n);
    assert |s.batches[0]| == limit + 1;
    forall k | 1 <= k <= |rows|
      ensures |Join(rows[..k])| != limit + 1
    {
      if k <= i {
        if k < i {
          EndsIncrease(rows, k, i);
        }
      } else if i + 1 < k {
        EndsIncrease(rows, i + 1, k);
      }
    }
  }

  /** Exactly the clean rows are never cut, whatever the limit. */
  lemma {:induction false} NeverCutIffClean(rows: seq<string>, accepts: nat -> bool, n: nat)
    requires Takes(accepts, n)
    ensures AllClean(rows) <==> forall limit: nat :: WholeRows(rows, limit, accepts, n)
  {
    if AllClean(rows) {
      forall limit: nat
        ensures WholeRows(rows, limit, accepts, n)
      {
        BatchesSplitRows(rows, limit, accepts, n);
      }
    } else {
      var i :| 0 <= i < |rows| && !Clean(rows[i]);
      var p :| 0 <= p < |rows[i]| && SepAt(rows[i], p);
      var limit := DirtyRowIsCut(rows, i, p, accepts, n);
      assert !WholeRows(rows, limit, accepts, n);
    }
  }

  ghost predicate WholeRows(rows: seq<string>, limit: nat, accepts: nat -> bool, n: nat)
  {
    var s := Batches(Join(rows), limit, accepts, n);
    Splits(rows, s.batches, s.ok)
  }

  // ----- the statement object -----

  /** The size left for values; size_t wraps when base and upsert text alone exceed the maximum. */
  function Limit(base: string, upsert: string): nat
  {
    (MAX_QUERY_SIZE - |base| - |upsert|) % 0x1_0000_0000_0000_0000
  }

  function Column(c: string): string
  {
    "`" + c + "` = VALUES(`" + c + "`)"
  }

  function Columns(cs: seq<string>): string
  {
    if cs == [] then "" else if |cs| == 1 then Column(cs[0]) else Columns(cs[..|cs| - 1]) + ", " + Column(cs[|cs| - 1])
  }

  function UpsertText(cs: seq<string>): string
  {
    if cs == [] then "" else " ON DUPLICATE KEY UPDATE " + Columns(cs)
  }

  function Queries(base: string, batches: seq<string>, upsert: string): (r: seq<string>)
    ensures |r| == |batches| && forall k :: 0 <= k < |r| ==> r[k] == base + " " + batches[k] + upsert
  {
    if batches == [] then [] else [base + " " + batches[0] + upsert] + Queries(base, batches[1..], upsert)
  }

  /** A first batch, and what becomes of the rest. */
  function Piece(batch: string, rest: string, limit: nat, accepts: nat -> bool, n: nat): Sent
  {
    var s := Batches(rest, limit, accepts, n + 1);
    if Takes(accepts, n) then Sent([batch] + s.batches, s.ok) else Sent([], false)
  }

  lemma {:induction false} JoinAppend(rows: seq<string>, row: string)
    ensures Join(rows + [row]) == if rows == [] then Wrapped(row) else Join(rows) + "," + Wrapped(row)
    ensures Join(rows) + "," + Wrapped(row) == Join(rows) + "," + "(" + row + ")"
  {
    if rows != [] {
      JoinSplit(rows + [row], |rows|);
      assert (rows + [row])[..|rows|] == rows && (rows + [row])[|rows|..] == [row];
    } else {
      assert rows + [row] == [row];
    }
  }

  lemma {:induction false} AppendFirst(s: seq<string>, q: string, rest: seq<string>)
    ensures (s + [q]) + rest == s + ([q] + rest)
  {
  }

  lemma {:induction false} QueriesCons(base: string, batch: string, batches: seq<string>, upsert: string)
    ensures Queries(base, [batch] + batches, upsert) == [base + " " + batch + upsert] + Queries(base, batches, upsert)
  {
    assert ([batch] + batches)[1..] == batches;
  }

  /** One attempt for every batch sent; after a failure possibly one more, which the database refused. */
  predicate Tried(before: nat, after: nat, s: Sent)
  {
    before + |s.batches| <= after <= before + |s.batches| + if s.ok then 0 else 1
  }

  /** If base and upsert text fit, no query exceeds the maximum by more than two bytes. */
  lemma {:induction false} QuerySizes(base: string, upsert: string, text: string, accepts: nat -> bool, n: nat)
    requires |base| + |upsert| <= 8388608
    ensures var qs := Queries(base, Batches(text, Limit(base, upsert), accepts, n).batches, upsert);
      forall k :: 0 <= k < |qs| ==> |qs[k]| <= 8388608 + 2
  {
    BatchSizes(text, Limit(base, upsert), accepts, n);
  }

  /** Every batch holds whole rows and as many as have room: one row more would not fit. */
  ghost predicate Packs(rows: seq<string>, batches: seq<string>, room: nat)
    decreases batches
  {
    batches == [] ||
    exists k :: 1 <= k <= |rows| && batches[0] == Join(rows[..k]) && Packs(rows[k..], batches[1..], room) &&
      (k < |rows| ==> |Join(rows[..k + 1])| > room)
  }

  /** The row after a cut does not fit. */
  lemma {:induction false} CutIsLast(rows: seq<string>, k: nat, limit: nat)
    requires 1 <= k < |rows| && limit < |Join(rows)| && RFind(Join(rows), limit) == End(rows, k)
    ensures |Join(rows[..k + 1])| > limit
  {
    if k + 1 < |rows| {
      BoundariesAreSeparators(rows, k + 1);
      EndsIncrease(rows, k, k + 1);
    } else {
      assert rows[..k + 1] == rows;
    }
  }

  lemma {:induction false} PacksStep(rows: seq<string>, k: nat, batches: seq<string>, room: nat)
    requires 1 <= k <= |rows| && Packs(rows[k..], batches, room) && (k < |rows| ==> |Join(rows[..k + 1])| > room)
    ensures Packs(rows, [Join(rows[..k])] + batches, room)
  {
    var all := [Join(rows[..k])] + batches;
    assert all[1..] == batches;
  }

  lemma {:induction false} BatchesPack(rows: seq<string>, limit: nat, accepts: nat -> bool, n: nat)
    requires AllClean(rows)
    ensures Packs(rows, Batches(Join(rows), limit, accepts, n).batches, limit)
    decreases |rows|
  {
    hide Batches, Join, RFind, Packs, End, AllClean;
    OneBatch(rows, limit, accepts, n);
    NothingPacked(rows, limit);
    assert rows[..|rows|] == rows && rows[|rows|..] == [];
    if rows != [] {
      if limit < |Join(rows)| {
        var k := BatchesStep(rows, limit, accepts, n);
        if k > 0 && Takes(accepts, n) {
          CutIsLast(rows, k, limit);
          BatchesPack(rows[k..], limit, accepts, n + 1);
          PacksStep(rows, k, Batches(Join(rows[k..]), limit, accepts, n + 1).batches, limit);
        }
      } else {
        NothingPacked(rows[|rows|..], limit);
        PacksStep(rows, |rows|, [], limit);
        assert [Join(rows)] + [] == [Join(rows)];
      }
    }
  }

  lemma {:induction false} NothingPacked(rows: seq<string>, room: nat)
    ensures Packs(rows, [], room)
  {
  }

  /** Rows within the limit are one batch. */
  lemma {:induction false} OneBatch(rows: seq<string>, limit: nat, accepts: nat -> bool, n: nat)
    ensures rows == [] ==> Batches(Join(rows), limit, accepts, n).batches == []
    ensures rows != [] && |Join(rows)| <= limit ==>
      Batches(Join(rows), limit, accepts, n) == if Takes(accepts, n) then Sent([Join(rows)], true) else Sent([], false)
  {
    hide RFind, Join;
    assert rows == [] ==> Join(rows) == "" by {
      JoinNothing();
    }
    if rows != [] && |Join(rows)| <= limit {
      var text := Join(rows);
      assert text[..|text|] == text;
      assert Batches("", limit, accepts, n + 1) == Sent([], true);
    }
  }

  lemma {:induction false} JoinNothing()
    ensures Join([]) == ""
  {
  }

  /** What base and upsert text leave of the maximum is used up: no query could have held one row more. */
  lemma {:induction false} QueriesAreFull(base: string, upsert: string, rows: seq<string>, accepts: nat -> bool, n: nat)
    requires AllClean(rows) && |base| + |upsert| <= 8388608
    ensures Packs(rows, Batches(Join(rows), Limit(base, upsert), accepts, n).batches, 8388608 - |base| - |upsert|)
  {
    hide *;
    RoomIs(base, upsert);
    BatchesPack(rows, Limit(base, upsert), accepts, n);
  }

  lemma {:induction false} RoomIs(base: string, upsert: string)
    requires |base| + |upsert| <= 8388608
    ensures Limit(base, upsert) == 8388608 - |base| - |upsert|
  {
  }

  /** The update clause names every column once, in order. */
  lemma {:induction false} ColumnsListed(cs: seq<string>, c: string)
    ensures UpsertText([]) == ""
    ensures Columns(cs + [c]) == (if cs == [] then "" else Columns(cs) + ", ") + ("`" + c + "` = VALUES(`" + c + "`)")
    ensures UpsertText(cs + [c]) == " ON DUPLICATE KEY UPDATE " + Columns(cs + [c])
  {
    var all := cs + [c];
    assert all[..|all| - 1] == cs && all[|all| - 1] == c;
    ColumnIs(c);
    hide Column;
    if cs == [] {
      assert "" + Column(c) == Column(c);
    }
  }

  lemma {:induction false} ColumnIs(c: string)
    ensures Column(c) == "`" + c + "` = VALUES(`" + c + "`)"
  {
  }

  /** The database: `queries` are those it took, the n-th attempt is taken if accepts(n). */
  class Database {
    const accepts: nat -> bool
    const maxPacketSize: nat
    var queries: seq<string>
    var attempts: nat

    constructor (accepts: nat -> bool, maxPacketSize: nat)
      ensures this.accepts == accepts && this.maxPacketSize == maxPacketSize && queries == [] && attempts == 0
    {
      this.accepts, this.maxPacketSize := accepts, maxPacketSize;
      queries, attempts := [], 0;
    }

    method ExecuteQuery(q: string) returns (ok: bool)
      modifies this
      ensures ok == Takes(accepts, old(attempts)) && attempts == old(attempts) + 1
      ensures queries == old(queries) + if ok then [q] else []
    {
      ok := Takes(accepts, attempts);
      attempts := attempts + 1;
      if ok {
        queries := queries + [q];
      }
    }
  }

  class DBInsert {
    const query: string
    const db: Database
    var upsertColumns: seq<string>
    var values: string
    var length: nat
    ghost var rows: seq<string>

    ghost predicate Valid()
      reads this`values, this`rows
    {
      values == Join(rows)
    }

    constructor (query: string, db: Database)
      ensures Valid() && rows == [] && this.query == query && this.db == db && upsertColumns == [] && length == |query|
    {
      this.query, this.db := query, db;
      upsertColumns, values, length, rows := [], "", |query|, [];
    }

    method Upsert(columns: seq<string>)
      modifies this`upsertColumns
      ensures upsertColumns == columns
    {
      upsertColumns := columns;
    }

    method UpsertQuery() returns (text: string)
      ensures text == UpsertText(upsertColumns)
    {
      text := "";
      if upsertColumns != [] {
        var list := "";
        for i := 0 to |upsertColumns|
          invariant list ==
            (if i == |upsertColumns| then Columns(upsertColumns) else if i == 0 then ""
            else Columns(upsertColumns[..i]) + ", ")
        {
          assert upsertColumns[..i + 1][..i] == upsertColumns[..i];
          assert upsertColumns[..|upsertColumns|] == upsertColumns;
          list := list + Column(upsertColumns[i]);
          if i < |upsertColumns| - 1 {
            list := list + ", ";
          }
        }
        text := " ON DUPLICATE KEY UPDATE " + list;
      }
    }

    /** One piece off the front of the text; false if no boundary lies within the limit. */
    method NextBatch(text: string, limit: nat) returns (found: bool, batchValues: string, rest: string)
      requires text != "" && text[|text| - 1] == ')'
      ensures found ==> |rest| < |text| && (rest != "" ==> rest[|rest| - 1] == ')')
      ensures !found ==> Batches(text, limit, db.accepts, db.attempts) == Sent([], false)
      ensures found ==>
        Batches(text, limit, db.accepts, db.attempts) == Piece(batchValues, rest, limit, db.accepts, db.attempts)
    {
      var cutPos := limit;
      if cutPos < |text| {
        var p := RFind(text, cutPos);
        if p == -1 {
          return false, "", text;
        }
        cutPos := p + 2;
      } else {
        cutPos := |text|;
      }
      batchValues := text[..cutPos];
      assert cutPos == |text| ==> batchValues == text && text[cutPos..] == "";
      assert cutPos < |text| ==> text[..cutPos][..cutPos - 1] == text[..cutPos - 1];
      if batchValues[|batchValues| - 1] == ',' {
        batchValues := batchValues[..|batchValues| - 1];
      }
      rest := text[cutPos..];
      found := true;
    }

    /** One turn of the loop: cut a piece off and send it. */
    method SendOne(text: string, limit: nat, upsertQuery: string) returns (taken: bool, rest: string)
      requires text != "" && text[|text| - 1] == ')'
      modifies db
      ensures var s := Batches(text, limit, db.accepts, old(db.attempts));
        if taken then
          db.attempts == old(db.attempts) + 1 && s.batches != [] &&
          db.queries == old(db.queries) + [query + " " + s.batches[0] + upsertQuery] &&
          |rest| < |text| && (rest != "" ==> rest[|rest| - 1] == ')') &&
          Batches(rest, limit, db.accepts, db.attempts) == Sent(s.batches[1..], s.ok)
        else
          s == Sent([], false) && db.queries == old(db.queries) &&
          old(db.attempts) <= db.attempts <= old(db.attempts) + 1
    {
      var found, batchValues, after := NextBatch(text, limit);
      hide Batches;
      if !found {
        return false, text;
      }
      taken := db.ExecuteQuery(query + " " + batchValues + upsertQuery);
      rest := after;
    }

    /** The loop of Execute. */
    method SendAll(text: string, limit: nat, upsertQuery: string) returns (ok: bool)
      requires text != "" ==> text[|text| - 1] == ')'
      modifies db
      ensures var s := Batches(text, limit, db.accepts, old(db.attempts));
        ok == s.ok && db.queries == old(db.queries) + Queries(query, s.batches, upsertQuery) &&
        Tried(old(db.attempts), db.attempts, s)
    {
      var currentBatch := text;
      ghost var all := Batches(text, limit, db.accepts, db.attempts);
      ghost var left, sent := all, [];
      while currentBatch != ""
        invariant currentBatch != "" ==> currentBatch[|currentBatch| - 1] == ')'
        invariant left == Batches(currentBatch, limit, db.accepts, db.attempts) && left.ok == all.ok
        invariant db.queries == old(db.queries) + sent &&
          sent + Queries(query, left.batches, upsertQuery) == Queries(query, all.batches, upsertQuery)
        invariant db.attempts + |left.batches| == old(db.attempts) + |all.batches|
        decreases |currentBatch|
      {
        hide Batches, Queries;
        var taken;
        taken, currentBatch := SendOne(currentBatch, limit, upsertQuery);
        if !taken {
          return false;
        }
        ghost var q := query + " " + left.batches[0] + upsertQuery;
        ghost var after := Queries(query, left.batches[1..], upsertQuery);
        assert left.batches == [left.batches[0]] + left.batches[1..];
        QueriesCons(query, left.batches[0], left.batches[1..], upsertQuery);
        AppendFirst(sent, q, after);
        sent, left := sent + [q], Sent(left.batches[1..], left.ok);
      }
      return true;
    }

    /** Sends the rows in batches. The collected values stay, so a later call sends them again. */
    method Execute() returns (ok: bool)
      requires Valid()
      modifies db
      ensures Valid()
      ensures var upsert := UpsertText(upsertColumns);
        var s := Batches(values, Limit(query, upsert), db.accepts, old(db.attempts));
        ok == s.ok && db.queries == old(db.queries) + Queries(query, s.batches, upsert) &&
        Tried(old(db.attempts), db.attempts, s)
    {
      if values == "" {
        return true;
      }
      var upsertQuery := UpsertQuery();
      JoinEnds(rows);
      hide *;
      ok := SendAll(values, Limit(query, upsertQuery), upsertQuery);
    }

    method AddRow(row: string) returns (ok: bool)
      requires Valid()
      modifies this`values, this`length, this`rows, db
      ensures Valid() && length == old(length) + |row|
      ensures rows == old(rows) + if ok then [row] else []
      ensures length <= db.maxPacketSize ==> ok && db.queries == old(db.queries) && db.attempts == old(db.attempts)
      ensures length > db.maxPacketSize ==>
        var upsert := UpsertText(upsertColumns);
        var s := Batches(Join(old(rows)), Limit(query, upsert), db.accepts, old(db.attempts));
        ok == s.ok && db.queries == old(db.queries) + Queries(query, s.batches, upsert) &&
        Tried(old(db.attempts), db.attempts, s)
    {
      length := length + |row|;
      if length > db.maxPacketSize {
        var flushed := Execute();
        if !flushed {
          return false;
        }
      }
      JoinAppend(rows, row);
      hide Batches, Queries, Limit, UpsertText, Join;
      if values == "" {
        values := "(" + row + ")";
      } else {
        values := values + "," + "(" + row + ")";
      }
      rows := rows + [row];
      return true;
    }
  }
}
