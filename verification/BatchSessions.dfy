/** A statement from its first row to its execution: the way its users drive it
    (src/io/iomapserialize.cpp: saveHouseItems; src/io/functions/iologindata_save_player.cpp).

    The counted length is never reset and the collected rows are never dropped. Once the count
    is over the packet size, every further row sends all the rows before it again.
  */
module BatchSessions {

  import opened BatchInsert

  /** The length counted after k rows, without the text of the statement. */
  function Total(rows: seq<string>, k: nat): nat
    requires k <= |rows|
  {
    if k == 0 then 0 else Total(rows, k - 1) + |rows[k - 1]|
  }

  /** A statement text of some length, the packet size, the size left for values, and the answers of the database. */
  datatype Setting = Setting(base: nat, packet: nat, limit: nat, accepts: nat -> bool)

  /** Adding row k sends the rows before it. */
  predicate Flushes(rows: seq<string>, k: nat, c: Setting)
    requires k < |rows|
  {
    c.base + Total(rows, k + 1) > c.packet
  }

  /** What is sent at row k, or at the end. */
  function Flush(rows: seq<string>, k: nat, c: Setting, n: nat): Sent
    requires k <= |rows|
  {
    if k == |rows| || Flushes(rows, k, c) then Batches(Join(rows[..k]), c.limit, c.accepts, n) else Sent([], true)
  }

  /** What is sent from row k on: the first failure ends it. */
  function Session(rows: seq<string>, k: nat, c: Setting, n: nat): Sent
    requires k <= |rows|
    decreases |rows| - k
  {
    var s := Flush(rows, k, c, n);
    if k == |rows| || !s.ok then s
    else
      var rest := Session(rows, k + 1, c, n + |s.batches|);
      Sent(s.batches + rest.batches, rest.ok)
  }

  // ----- which rows are sent, and how often -----

  /** The first k positions. */
  function Upto(k: nat): (r: seq<nat>)
    ensures |r| == k && forall i :: 0 <= i < k ==> r[i] == i
  {
    seq(k, i => i)
  }

  /** The positions of the rows in the order in which they are sent. */
  function Order(rows: seq<string>, k: nat, c: Setting): (r: seq<nat>)
    requires k <= |rows|
    ensures forall i :: 0 <= i < |r| ==> r[i] < |rows|
    decreases |rows| - k
  {
    if k == |rows| then Upto(k) else (if Flushes(rows, k, c) then Upto(k) else []) + Order(rows, k + 1, c)
  }

  /** How many of the rows from k on send the rows before them. */
  function FlushesFrom(rows: seq<string>, k: nat, c: Setting): (r: nat)
    requires k <= |rows|
    decreases |rows| - k
  {
    if k == |rows| then 0 else (if Flushes(rows, k, c) then 1 else 0) + FlushesFrom(rows, k + 1, c)
  }

  function Pick(rows: seq<string>, order: seq<nat>): (r: seq<string>)
    requires forall i :: 0 <= i < |order| ==> order[i] < |rows|
    ensures |r| == |order| && forall i :: 0 <= i < |r| ==> r[i] == rows[order[i]]
  {
    seq(|order|, i requires 0 <= i < |order| => rows[order[i]])
  }

  lemma {:induction false} UptoHolds(k: nat, i: nat)
    ensures multiset(Upto(k))[i] == if i < k then 1 else 0
  {
    if k > 0 {
      assert Upto(k) == Upto(k - 1) + [k - 1];
      UptoHolds(k - 1, i);
    }
  }

  /** From row k on, row i is sent at the end and once more for every later row that sends the rows before it. */
  lemma {:induction false} TimesSent(rows: seq<string>, k: nat, i: nat, c: Setting)
    requires k <= |rows| && i < |rows|
    ensures multiset(Order(rows, k, c))[i] == 1 + FlushesFrom(rows, if i < k then k else i + 1, c)
    decreases |rows| - k
  {
    hide *;
    UptoHolds(k, i);
    OrderStep(rows, k, i, c);
    if k < |rows| {
      TimesSent(rows, k + 1, i, c);
    }
  }

  lemma {:induction false} OrderStep(rows: seq<string>, k: nat, i: nat, c: Setting)
    requires k <= |rows|
    ensures multiset(Order(rows, k, c))[i] ==
      (if k == |rows| || Flushes(rows, k, c) then multiset(Upto(k))[i] else 0) +
      (if k < |rows| then multiset(Order(rows, k + 1, c))[i] else 0)
    ensures FlushesFrom(rows, k, c) ==
      if k == |rows| then 0 else (if Flushes(rows, k, c) then 1 else 0) + FlushesFrom(rows, k + 1, c)
  {
    hide Upto, Flushes;
    if k < |rows| {
      CountAppend(if Flushes(rows, k, c) then Upto(k) else [], Order(rows, k + 1, c), i);
    }
  }

  lemma {:induction false} CountAppend(a: seq<nat>, b: seq<nat>, i: nat)
    ensures multiset(a + b)[i] == multiset(a)[i] + multiset(b)[i]
  {
  }

  /** The total only grows: from the first row over the packet size on, every row sends. */
  lemma {:induction false} FlushesToTheEnd(rows: seq<string>, k: nat, c: Setting)
    requires k < |rows| && Flushes(rows, k, c)
    ensures FlushesFrom(rows, k, c) == |rows| - k
    decreases |rows| - k
  {
    if k + 1 < |rows| {
      assert Total(rows, k + 2) >= Total(rows, k + 1);
      FlushesToTheEnd(rows, k + 1, c);
    }
  }

  // ----- the queries carry the rows in that order -----

  /** The first batch is whole rows, and the others split the rest. */
  lemma {:induction false} SplitsHead(rows: seq<string>, batches: seq<string>, complete: bool) returns (k: nat)
    requires batches != [] && Splits(rows, batches, complete)
    ensures 1 <= k <= |rows| && batches[0] == Join(rows[..k]) && Splits(rows[k..], batches[1..], complete)
  {
    hide Join;
    k :| 1 <= k <= |rows| && batches[0] == Join(rows[..k]) && Splits(rows[k..], batches[1..], complete);
  }

  /** One batch in front of more rows. */
  lemma {:induction false} SplitsFront(a: seq<string>, k: nat, x: seq<string>, b: seq<string>, y: seq<string>,
      complete: bool)
    requires 1 <= k <= |a| && x != [] && x[0] == Join(a[..k]) && Splits(a[k..] + b, x[1..] + y, complete)
    ensures Splits(a + b, x + y, complete)
  {
    hide *;
    assert (a + b)[..k] == a[..k] && (a + b)[k..] == a[k..] + b && x + y == [x[0]] + (x[1..] + y);
    SplitsStep(a + b, k, x[1..] + y, complete);
  }

  lemma {:induction false} SplitsNone(rows: seq<string>, complete: bool)
    ensures Splits(rows, [], complete) <==> (complete ==> rows == [])
  {
  }

  lemma {:induction false} SplitsAppend(a: seq<string>, x: seq<string>, b: seq<string>, y: seq<string>, complete: bool)
    requires Splits(a, x, true) && Splits(b, y, complete)
    ensures Splits(a + b, x + y, complete)
    decreases |x|
  {
    hide *;
    if x == [] {
      SplitsNone(a, true);
      assert a + b == b && x + y == y;
    } else {
      var k := SplitsHead(a, x, true);
      SplitsAppend(a[k..], x[1..], b, y, complete);
      SplitsFront(a, k, x, b, y, complete);
    }
  }

  /** What was sent before a failure is whole rows of anything that goes on. */
  lemma {:induction false} SplitsMore(a: seq<string>, x: seq<string>, b: seq<string>)
    requires Splits(a, x, false)
    ensures Splits(a + b, x, false)
    decreases |x|
  {
    hide *;
    assert x + [] == x;
    if x == [] {
      SplitsNone(a + b, false);
    } else {
      var k := SplitsHead(a, x, false);
      SplitsMore(a[k..], x[1..], b);
      assert x[1..] + [] == x[1..];
      SplitsFront(a, k, x, b, [], false);
    }
  }

  lemma {:induction false} PickUpto(rows: seq<string>, k: nat)
    requires k <= |rows|
    ensures Pick(rows, Upto(k)) == rows[..k]
  {
  }

  lemma {:induction false} PickAppend(rows: seq<string>, a: seq<nat>, b: seq<nat>)
    requires forall i :: 0 <= i < |a| ==> a[i] < |rows|
    requires forall i :: 0 <= i < |b| ==> b[i] < |rows|
    ensures Pick(rows, a + b) == Pick(rows, a) + Pick(rows, b)
  {
  }

  lemma {:induction false} FlushSplits(rows: seq<string>, k: nat, c: Setting, n: nat)
    requires k <= |rows| && AllClean(rows)
    ensures var s := Flush(rows, k, c, n);
      Splits(if k == |rows| || Flushes(rows, k, c) then rows[..k] else [], s.batches, s.ok)
  {
    hide Batches, Join;
    assert forall j :: 0 <= j < k ==> rows[..k][j] == rows[j];
    BatchesSplitRows(rows[..k], c.limit, c.accepts, n);
  }

  /** What is sent from row k on is the rows in their order of sending, none cut, all of them on success. */
  lemma {:induction false} SessionSends(rows: seq<string>, k: nat, c: Setting, n: nat)
    requires k <= |rows| && AllClean(rows)
    ensures var s := Session(rows, k, c, n); Splits(Pick(rows, Order(rows, k, c)), s.batches, s.ok)
    decreases |rows| - k
  {
    hide Flush, Splits, Flushes;
    FlushSplits(rows, k, c, n);
    PickUpto(rows, k);
    if k < |rows| {
      var s := Flush(rows, k, c, n);
      var first := if Flushes(rows, k, c) then Upto(k) else [];
      var rest := Order(rows, k + 1, c);
      PickAppend(rows, first, rest);
      if s.ok {
        SessionSends(rows, k + 1, c, n + |s.batches|);
        var more := Session(rows, k + 1, c, n + |s.batches|);
        SplitsAppend(Pick(rows, first), s.batches, Pick(rows, rest), more.batches, more.ok);
      } else {
        SplitsMore(Pick(rows, first), s.batches, Pick(rows, rest));
      }
    }
  }

  // ----- exactly once -----

  /** The length of all batches, a comma behind each. */
  function Volume(batches: seq<string>): nat
  {
    if batches == [] then 0 else |batches[0]| + 1 + Volume(batches[1..])
  }

  lemma {:induction false} VolumeAppend(a: seq<string>, b: seq<string>)
    ensures Volume(a + b) == Volume(a) + Volume(b)
  {
    if a == [] {
      assert a + b == b;
    } else {
      assert (a + b)[1..] == a[1..] + b;
      VolumeAppend(a[1..], b);
    }
  }

  /** However the rows are split, the volume is that of the joined text. */
  lemma {:induction false} SplitsVolume(rows: seq<string>, batches: seq<string>)
    requires Splits(rows, batches, true)
    ensures Volume(batches) == if rows == [] then 0 else |Join(rows)| + 1
    decreases |batches|
  {
    if batches != [] {
      var k :| 1 <= k <= |rows| && batches[0] == Join(rows[..k]) && Splits(rows[k..], batches[1..], true);
      SplitsVolume(rows[k..], batches[1..]);
      if k < |rows| {
        JoinSplit(rows, k);
      } else {
        assert rows[..k] == rows;
      }
    }
  }

  /** The batches sent from row k on hold at least all the rows. */
  lemma {:induction false} SessionVolume(rows: seq<string>, k: nat, c: Setting, n: nat)
    requires k <= |rows| && AllClean(rows) && rows != [] && Session(rows, k, c, n).ok
    ensures Volume(Session(rows, k, c, n).batches) >= |Join(rows)| + 1
    decreases |rows| - k
  {
    hide Flush, Splits, Flushes, Volume, Join;
    var s := Flush(rows, k, c, n);
    if k == |rows| {
      assert rows[..k] == rows;
      FlushSplits(rows, k, c, n);
      SplitsVolume(rows, s.batches);
    } else {
      var rest := Session(rows, k + 1, c, n + |s.batches|);
      SessionVolume(rows, k + 1, c, n + |s.batches|);
      VolumeAppend(s.batches, rest.batches);
    }
  }

  /** Once a row sends rows before it, the volume is above that of all the rows. */
  lemma {:induction false} ExtraVolume(rows: seq<string>, k: nat, j: nat, c: Setting, n: nat)
    requires k <= j < |rows| && 0 < j && Flushes(rows, j, c)
    requires AllClean(rows) && Session(rows, k, c, n).ok
    ensures Volume(Session(rows, k, c, n).batches) > |Join(rows)| + 1
    decreases |rows| - k
  {
    hide Flush, Splits, Flushes, Volume, Join;
    var s := Flush(rows, k, c, n);
    var m := n + |s.batches|;
    var rest := Session(rows, k + 1, c, m);
    VolumeAppend(s.batches, rest.batches);
    if k < j {
      ExtraVolume(rows, k + 1, j, c, m);
    } else {
      SessionVolume(rows, k + 1, c, m);
      FlushSplits(rows, k, c, n);
      SplitsVolume(rows[..k], s.batches);
    }
  }

  /** If no row but the first sends anything, all that is sent is sent at the end. */
  lemma {:induction false} QuietSession(rows: seq<string>, k: nat, c: Setting, n: nat)
    requires k <= |rows| && forall j :: k <= j < |rows| && 0 < j ==> !Flushes(rows, j, c)
    ensures Session(rows, k, c, n) == Batches(Join(rows), c.limit, c.accepts, n)
    decreases |rows| - k
  {
    hide Batches, Flushes;
    assert rows[..|rows|] == rows;
    if k < |rows| {
      EmptyFlush(rows, k, c, n);
      QuietSession(rows, k + 1, c, n);
    }
  }

  lemma {:induction false} EmptyFlush(rows: seq<string>, k: nat, c: Setting, n: nat)
    requires k < |rows| && (k == 0 || !Flushes(rows, k, c))
    ensures Flush(rows, k, c, n) == Sent([], true)
  {
    hide Flushes;
  }

  lemma {:induction false} TotalGrows(rows: seq<string>, j: nat, k: nat)
    requires j <= k <= |rows|
    ensures Total(rows, j) <= Total(rows, k)
  {
    if j < k {
      TotalGrows(rows, j, k - 1);
    }
  }

  /** At most one row, or all of them within the packet size. */
  predicate Fits(rows: seq<string>, c: Setting)
  {
    |rows| <= 1 || c.base + Total(rows, |rows|) <= c.packet
  }

  /** A successful session sends exactly its rows, each of them once, if and only if they fit the packet size. */
  lemma {:induction false} SentOnceIff(rows: seq<string>, c: Setting, n: nat)
    requires AllClean(rows) && Session(rows, 0, c, n).ok
    ensures Splits(rows, Session(rows, 0, c, n).batches, true) <==> Fits(rows, c)
  {
    hide Session, Splits, Batches, AllClean, Join;
    if Fits(rows, c) {
      forall j | 0 < j < |rows|
        ensures !Flushes(rows, j, c)
      {
        TotalGrows(rows, j + 1, |rows|);
      }
      QuietSession(rows, 0, c, n);
      BatchesSplitRows(rows, c.limit, c.accepts, n);
    } else {
      ExtraVolume(rows, 0, |rows| - 1, c, n);
      if Splits(rows, Session(rows, 0, c, n).batches, true) {
        SplitsVolume(rows, Session(rows, 0, c, n).batches);
      }
    }
  }

  /** Every row fits on its own whenever it is sent, also as the last one. */
  ghost predicate AlwaysFit(rows: seq<string>, k: nat, c: Setting)
    requires k <= |rows|
  {
    Fit(rows, c.limit) && forall j :: k <= j < |rows| && Flushes(rows, j, c) ==> Fit(rows[..j], c.limit)
  }

  /** With a database that takes everything, a session succeeds exactly if every row fits whenever it is sent. */
  lemma {:induction false} SessionOkIff(rows: seq<string>, k: nat, c: Setting, n: nat)
    requires k <= |rows| && AllClean(rows) && TakesAll(c.accepts)
    ensures Session(rows, k, c, n).ok <==> AlwaysFit(rows, k, c)
    decreases |rows| - k
  {
    hide Fit, Flushes, Batches, Join;
    assert rows[..|rows|] == rows;
    assert forall j :: 0 <= j < k ==> rows[..k][j] == rows[j];
    SentIffFit(rows[..k], c.limit, c.accepts, n);
    if k < |rows| {
      SessionOkIff(rows, k + 1, c, n + |Flush(rows, k, c, n).batches|);
    }
  }

  lemma {:induction false} WholeText(text: string, limit: nat, accepts: nat -> bool, n: nat)
    requires 0 < |text| <= limit && Takes(accepts, n)
    ensures Batches(text, limit, accepts, n) == Sent([text], true)
  {
    assert Batches("", limit, accepts, n + 1) == Sent([], true);
    assert text[..|text|] == text;
  }

  lemma {:induction false} TwoQueries()
    ensures Queries("I", ["(a)", "(a),(b)"], "") == ["I (a)", "I (a),(b)"]
  {
    var qs := Queries("I", ["(a)", "(a),(b)"], "");
    assert qs[0] == "I (a)" && qs[1] == "I (a),(b)";
  }

  lemma {:induction false} TwoRows(rows: seq<string>)
    requires rows == ["a", "b"]
    ensures Total(rows, 1) == 1 && Total(rows, 2) == 2
    ensures Join(rows[..1]) == "(a)" && Join(rows) == "(a),(b)" && rows[..2] == rows
  {
    assert rows[..1] == ["a"] && rows[..2] == rows && rows[1..] == ["b"];
  }

  lemma {:induction false} TwoFlushes(rows: seq<string>, c: Setting)
    requires rows == ["a", "b"] && c.base == 1 && c.packet == 2 && c.limit >= 7 && TakesAll(c.accepts)
    ensures Flush(rows, 0, c, 0) == Sent([], true) && Flushes(rows, 1, c)
    ensures Flush(rows, 1, c, 0) == Sent(["(a)"], true) && Flush(rows, 2, c, 1) == Sent(["(a),(b)"], true)
  {
    hide Batches, Join, Total;
    TwoRows(rows);
    assert Takes(c.accepts, 0) && Takes(c.accepts, 1);
    WholeText("(a)", c.limit, c.accepts, 0);
    WholeText("(a),(b)", c.limit, c.accepts, 1);
    EmptyFlush(rows, 0, c, 0);
  }

  /** Two rows of one letter and a packet of two bytes: the first row arrives twice. */
  lemma {:induction false} FirstRowTwice(accepts: nat -> bool)
    requires TakesAll(accepts)
    ensures var rows := ["a", "b"];
      var c := Setting(|"I"|, 2, Limit("I", ""), accepts);
      Queries("I", Session(rows, 0, c, 0).batches, "") == ["I (a)", "I (a),(b)"] && multiset(Order(rows, 0, c))[0] == 2
  {
    hide Batches, Join, Total, Flush, Queries, Order, FlushesFrom, Flushes;
    var rows := ["a", "b"];
    var c := Setting(|"I"|, 2, Limit("I", ""), accepts);
    TwoFlushes(rows, c);
    assert Session(rows, 2, c, 1) == Sent(["(a),(b)"], true);
    assert Session(rows, 1, c, 0) == Sent(["(a)", "(a),(b)"], true);
    assert Session(rows, 0, c, 0) == Sent(["(a)", "(a),(b)"], true);
    TwoQueries();
    TimesSent(rows, 0, 0, c);
    FlushesToTheEnd(rows, 1, c);
  }

  // ----- the users of the statement -----

  lemma {:induction false} QueriesAppend(base: string, a: seq<string>, b: seq<string>, upsert: string)
    ensures Queries(base, a + b, upsert) == Queries(base, a, upsert) + Queries(base, b, upsert)
  {
    if a == [] {
      assert a + b == b;
    } else {
      assert (a + b)[1..] == a[1..] + b;
      QueriesAppend(base, a[1..], b, upsert);
    }
  }

  /** One row more: what is sent now comes before what is sent later, and a failure ends it. */
  lemma {:induction false} Turn(rows: seq<string>, k: nat, c: Setting, n: nat, sent: seq<string>, all: Sent)
    requires k <= |rows|
    requires var rest := Session(rows, k, c, n); all == Sent(sent + rest.batches, rest.ok)
    ensures var s := Flush(rows, k, c, n);
      if k == |rows| || !s.ok then all == Sent(sent + s.batches, s.ok)
      else
        var rest := Session(rows, k + 1, c, n + |s.batches|);
        all == Sent(sent + s.batches + rest.batches, rest.ok)
  {
    hide Flush;
    var s := Flush(rows, k, c, n);
    if k < |rows| && s.ok {
      var rest := Session(rows, k + 1, c, n + |s.batches|);
      assert sent + (s.batches + rest.batches) == sent + s.batches + rest.batches;
    }
  }

  /** What adding a row promises is what the session sends at that row. */
  lemma {:induction false} FlushAt(rows: seq<string>, k: nat, c: Setting, n: nat, length: nat)
    requires k < |rows| && length == c.base + Total(rows, k) + |rows[k]|
    ensures Flush(rows, k, c, n) == if length > c.packet then Batches(Join(rows[..k]), c.limit, c.accepts, n)
      else Sent([], true)
    ensures Total(rows, k + 1) == Total(rows, k) + |rows[k]| && rows[..k + 1] == rows[..k] + [rows[k]]
  {
    hide Batches, Join;
  }

  lemma {:induction false} LastFlush(rows: seq<string>, c: Setting, n: nat)
    ensures Flush(rows, |rows|, c, n) == Batches(Join(rows), c.limit, c.accepts, n)
    ensures rows[..|rows|] == rows
  {
    hide Batches, Join;
    assert rows[..|rows|] == rows;
  }

  lemma {:induction false} NothingYet(rows: seq<string>, base: string, upsert: string, all: Sent)
    ensures rows[..0] == [] && Total(rows, 0) == 0 && Queries(base, [], upsert) == []
    ensures all == Sent([] + all.batches, all.ok)
  {
  }

  /** The setting of a statement over its database. */
  function SettingOf(query: string, columns: seq<string>, db: Database): (c: Setting)
    ensures c.base == |query| && c.packet == db.maxPacketSize && c.accepts == db.accepts
    ensures c.limit == Limit(query, UpsertText(columns))
  {
    Setting(|query|, db.maxPacketSize, Limit(query, UpsertText(columns)), db.accepts)
  }

  /** The statement holds the first k rows. */
  ghost predicate Holds(insert: DBInsert, rows: seq<string>, k: nat)
    reads insert
  {
    k <= |rows| && insert.Valid() && insert.rows == rows[..k] && insert.length == |insert.query| + Total(rows, k)
  }

  /** What a step sends: the database has its queries, and on success an attempt for each. */
  ghost predicate Sends(insert: DBInsert, s: Sent, queries: seq<string>, attempts: nat, ok: bool)
    reads insert, insert.db
  {
    var db := insert.db;
    ok == s.ok && db.queries == queries + Queries(insert.query, s.batches, UpsertText(insert.upsertColumns)) &&
    (ok ==> db.attempts == attempts + |s.batches|)
  }

  method Begin(query: string, columns: seq<string>, rows: seq<string>, db: Database) returns (insert: DBInsert)
    ensures fresh(insert) && insert.query == query && insert.upsertColumns == columns && insert.db == db
    ensures Holds(insert, rows, 0)
  {
    insert := new DBInsert(query, db);
    insert.Upsert(columns);
    assert rows[..0] == [];
  }

  method AddNext(insert: DBInsert, rows: seq<string>, k: nat) returns (ok: bool)
    requires k < |rows| && Holds(insert, rows, k)
    modifies insert`values, insert`length, insert`rows, insert.db
    ensures var c := SettingOf(insert.query, insert.upsertColumns, insert.db);
      Sends(insert, Flush(rows, k, c, old(insert.db.attempts)), old(insert.db.queries), old(insert.db.attempts), ok)
    ensures ok ==> Holds(insert, rows, k + 1)
  {
    hide Flush, Batches, Queries, Join, UpsertText, Limit, Total;
    ghost var c := SettingOf(insert.query, insert.upsertColumns, insert.db);
    FlushAt(rows, k, c, insert.db.attempts, insert.length + |rows[k]|);
    NothingYet(rows, insert.query, UpsertText(insert.upsertColumns), Sent([], true));
    ok := insert.AddRow(rows[k]);
  }

  method Finish(insert: DBInsert, rows: seq<string>) returns (ok: bool)
    requires Holds(insert, rows, |rows|)
    modifies insert.db
    ensures var c := SettingOf(insert.query, insert.upsertColumns, insert.db);
      Sends(insert, Flush(rows, |rows|, c, old(insert.db.attempts)), old(insert.db.queries), old(insert.db.attempts),
        ok)
  {
    hide Flush, Batches, Queries, Join, UpsertText, Limit, Total;
    LastFlush(rows, SettingOf(insert.query, insert.upsertColumns, insert.db), insert.db.attempts);
    ok := insert.Execute();
  }

  /** Sending goes on after what was sent before. */
  lemma {:induction false} SendsMore(insert: DBInsert, first: seq<string>, sent: seq<string>, s: Sent,
      queries: seq<string>, attempts: nat, ok: bool)
    requires Sends(insert, s, queries, attempts, ok)
    requires queries == first + Queries(insert.query, sent, UpsertText(insert.upsertColumns))
    ensures ok == s.ok && (ok ==> insert.db.attempts == attempts + |s.batches|)
    ensures insert.db.queries == first + Queries(insert.query, sent + s.batches, UpsertText(insert.upsertColumns))
  {
    hide Queries, UpsertText;
    QueriesAppend(insert.query, sent, s.batches, UpsertText(insert.upsertColumns));
  }

  /** Collects all rows and executes the statement; the first failure ends it. */
  method Save(query: string, columns: seq<string>, rows: seq<string>, db: Database) returns (ok: bool)
    modifies db
    ensures var s := Session(rows, 0, SettingOf(query, columns, db), old(db.attempts));
      ok == s.ok && db.queries == old(db.queries) + Queries(query, s.batches, UpsertText(columns))
  {
    hide *;
    var insert := Begin(query, columns, rows, db);
    ghost var c := SettingOf(query, columns, db);
    ghost var all := Session(rows, 0, c, db.attempts);
    ghost var sent := [];
    NothingYet(rows, query, UpsertText(columns), all);
    for k := 0 to |rows|
      invariant Holds(insert, rows, k)
      invariant insert.query == query && insert.upsertColumns == columns && insert.db == db
      invariant db.queries == old(db.queries) + Queries(query, sent, UpsertText(columns))
      invariant var rest := Session(rows, k, c, db.attempts); all == Sent(sent + rest.batches, rest.ok)
    {
      ghost var before, queries := db.attempts, db.queries;
      Turn(rows, k, c, before, sent, all);
      ghost var s := Flush(rows, k, c, before);
      var taken := AddNext(insert, rows, k);
      SendsMore(insert, old(db.queries), sent, s, queries, before, taken);
      if !taken {
        return false;
      }
      sent := sent + s.batches;
    }
    ghost var before, queries := db.attempts, db.queries;
    Turn(rows, |rows|, c, before, sent, all);
    ok := Finish(insert, rows);
    SendsMore(insert, old(db.queries), sent, Flush(rows, |rows|, c, before), queries, before, ok);
  }
}
