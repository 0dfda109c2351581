/**
 * The decoder: stored rows become order-book events again.
 *
 * The whole input is rejected when a row's side is not absent, "BUY" or
 * "SELL". Otherwise the rows are stably sorted by (instrument id, event time)
 * and cut into runs of equal keys; a run whose first row was written for a
 * snapshot becomes a snapshot, any other run a batch of deltas; the events are
 * finally stably sorted by event time.
 */
module OrderBookDecoder {
  import opened Wrappers
  import opened BookData
  import opened LexOrder
  import opened StableSort

  /** The assertion a decode stops at. */
  datatype DecodeError =
    | WrongSides        // a row's side is not absent, "BUY" or "SELL"
    | MixedInstruments  // a snapshot group spans other than exactly one instrument
    | NotEnoughValues   // a snapshot group has fewer than two rows

  /** Every row's side column is one the decoder accepts. */
  predicate AllSidesValid(rows: seq<Row>) {
    forall i :: 0 <= i < |rows| ==> ValidSide(rows[i].side)
  }

  // ---------------------------------------------------------------------------
  // Keys and the row order

  /** `_sort_func`: the key rows are sorted and grouped by. */
  datatype RowKey = RowKey(instrumentId: string, tsEvent: nat)

  function KeyOf(row: Row): RowKey {
    RowKey(row.instrumentId, row.tsEvent)
  }

  /** Python's comparison of `(instrument_id, ts_event)` tuples. */
  predicate KeyLess(a: RowKey, b: RowKey) {
    LexLess(a.instrumentId, b.instrumentId)
    || (a.instrumentId == b.instrumentId && a.tsEvent < b.tsEvent)
  }

  lemma KeyLessIrreflexive(a: RowKey)
    ensures !KeyLess(a, a)
  {
    LexIrreflexive(a.instrumentId);
  }

  lemma KeyLessTransitive(a: RowKey, b: RowKey, c: RowKey)
    requires KeyLess(a, b) && KeyLess(b, c)
    ensures KeyLess(a, c)
  {
    if LexLess(a.instrumentId, b.instrumentId) && LexLess(b.instrumentId, c.instrumentId) {
      LexTransitive(a.instrumentId, b.instrumentId, c.instrumentId);
    }
  }

  /** Keys are totally ordered: two keys that neither precede the other are equal. */
  lemma KeyLessTotal(a: RowKey, b: RowKey)
    ensures a == b || KeyLess(a, b) || KeyLess(b, a)
  {
    if a.instrumentId != b.instrumentId {
      LexTotal(a.instrumentId, b.instrumentId);
    }
  }

  /** The row order used by `sorted(data, key=_sort_func)`. */
  predicate RowBefore(a: Row, b: Row) {
    KeyLess(KeyOf(a), KeyOf(b))
  }

  /** Rows the sort does not separate are exactly the rows with equal keys. */
  lemma EquivalentIsSameKey(a: Row, b: Row)
    ensures Equivalent(RowBefore, a, b) <==> KeyOf(a) == KeyOf(b)
  {
    KeyLessTotal(KeyOf(a), KeyOf(b));
    KeyLessIrreflexive(KeyOf(a));
  }

  lemma RowOrder()
    ensures StrictWeakOrder(RowBefore)
  {
    forall a: Row ensures !RowBefore(a, a) {
      KeyLessIrreflexive(KeyOf(a));
    }
    forall a: Row, b: Row, c: Row | RowBefore(a, b) && RowBefore(b, c)
      ensures RowBefore(a, c)
    {
      KeyLessTransitive(KeyOf(a), KeyOf(b), KeyOf(c));
    }
    forall a: Row, b: Row, c: Row | !RowBefore(a, b) && !RowBefore(b, c)
      ensures !RowBefore(a, c)
    {
      KeyLessTotal(KeyOf(a), KeyOf(b));
      KeyLessTotal(KeyOf(b), KeyOf(c));
      if RowBefore(a, c) {
        if KeyOf(a) == KeyOf(b) {
          KeyLessTransitive(KeyOf(b), KeyOf(c), KeyOf(b));
          KeyLessIrreflexive(KeyOf(b));
        } else {
          KeyLessTransitive(KeyOf(b), KeyOf(a), KeyOf(c));
          KeyLessTransitive(KeyOf(c), KeyOf(b), KeyOf(c));
          KeyLessIrreflexive(KeyOf(c));
        }
      }
    }
  }

  /** `sorted(data, key=_sort_func)`. */
  function SortRows(rows: seq<Row>): seq<Row> {
    Sort(rows, RowBefore)
  }

  /** The rows that have key `k`, in the order of `rows`. */
  function WithKey(rows: seq<Row>, k: RowKey): (r: seq<Row>)
    ensures forall row :: row in r ==> row in rows && KeyOf(row) == k
  {
    if rows == [] then []
    else (if KeyOf(rows[0]) == k then [rows[0]] else []) + WithKey(rows[1..], k)
  }

  lemma {:induction false} SameRankIsWithKey(rows: seq<Row>, y: Row)
    ensures SameRank(rows, y, RowBefore) == WithKey(rows, KeyOf(y))
  {
    if rows != [] {
      EquivalentIsSameKey(rows[0], y);
      SameRankIsWithKey(rows[1..], y);
    }
  }

  /** Sorting keeps, for every key, the input order of the rows with that key. */
  lemma SortRowsStable(rows: seq<Row>, k: RowKey)
    ensures WithKey(SortRows(rows), k) == WithKey(rows, k)
  {
    RowOrder();
    var y := Row(k.instrumentId, Clear, None, 0, 0, k.tsEvent, 0, "", false);
    SortStable(rows, y, RowBefore);
    SameRankIsWithKey(rows, y);
    SameRankIsWithKey(SortRows(rows), y);
  }

  lemma {:induction false} WithKeyConcat(a: seq<Row>, b: seq<Row>, k: RowKey)
    ensures WithKey(a + b, k) == WithKey(a, k) + WithKey(b, k)
  {
    if a == [] {
      assert a + b == b;
    } else {
      assert (a + b)[0] == a[0] && (a + b)[1..] == a[1..] + b;
      WithKeyConcat(a[1..], b, k);
    }
  }

  lemma {:induction false} WithKeyAll(rows: seq<Row>, k: RowKey)
    requires forall i :: 0 <= i < |rows| ==> KeyOf(rows[i]) == k
    ensures WithKey(rows, k) == rows
  {
    if rows != [] {
      WithKeyAll(rows[1..], k);
    }
  }

  lemma {:induction false} WithKeyNone(rows: seq<Row>, k: RowKey)
    requires forall i :: 0 <= i < |rows| ==> KeyOf(rows[i]) != k
    ensures WithKey(rows, k) == []
  {
    if rows != [] {
      WithKeyNone(rows[1..], k);
    }
  }

  lemma {:induction false} InWithKey(rows: seq<Row>, row: Row)
    requires row in rows
    ensures row in WithKey(rows, KeyOf(row))
  {
    if rows[0] != row {
      InWithKey(rows[1..], row);
    }
  }

  // ---------------------------------------------------------------------------
  // Grouping (`itertools.groupby`)

  function Concat<T>(chunks: seq<seq<T>>): seq<T> {
    if chunks == [] then [] else chunks[0] + Concat(chunks[1..])
  }

  lemma {:induction false} InConcat<T>(chunks: seq<seq<T>>, x: T)
    requires x in Concat(chunks)
    ensures exists i, j :: 0 <= i < |chunks| && 0 <= j < |chunks[i]| && chunks[i][j] == x
  {
    if x in chunks[0] {
      var j :| 0 <= j < |chunks[0]| && chunks[0][j] == x;
      assert chunks[0][j] == x;
    } else {
      InConcat(chunks[1..], x);
      var i, j :| 0 <= i < |chunks[1..]| && 0 <= j < |chunks[1..][i]| && chunks[1..][i][j] == x;
      assert chunks[i + 1][j] == x;
    }
  }

  /** The length of the leading run of rows sharing the first row's key. */
  function RunLength(rows: seq<Row>): (n: nat)
    requires rows != []
    ensures 1 <= n <= |rows|
    ensures forall i :: 0 <= i < n ==> KeyOf(rows[i]) == KeyOf(rows[0])
    ensures n < |rows| ==> KeyOf(rows[n]) != KeyOf(rows[0])
  {
    if |rows| == 1 || KeyOf(rows[1]) != KeyOf(rows[0]) then 1
    else 1 + RunLength(rows[1..])
  }

  /**
   * `itertools.groupby(rows, key=_sort_func)`: cuts `rows` into maximal runs
   * of rows with equal keys; joined back together they give `rows`.
   */
  function Chunks(rows: seq<Row>): (chunks: seq<seq<Row>>)
    ensures Concat(chunks) == rows
    ensures forall i :: 0 <= i < |chunks| ==> chunks[i] != []
    ensures forall i, j :: 0 <= i < |chunks| && 0 <= j < |chunks[i]| ==>
      KeyOf(chunks[i][j]) == KeyOf(chunks[i][0]) && chunks[i][j] in rows
    ensures forall i :: 0 < i < |chunks| ==> KeyOf(chunks[i][0]) != KeyOf(chunks[i - 1][0])
    decreases |rows|
  {
    if rows == [] then []
    else
      var n := RunLength(rows);
      var rest := Chunks(rows[n..]);
      ChunksConsJoin(rows, n, rest);
      ChunksConsMembers(rows, n, rest);
      ChunksConsBoundary(rows, n, rest);
      ChunksConsKeys(rows, n, rest);
      [rows[..n]] + rest
  }

  /** The leading run followed by the groups of the remainder join back to the rows. */
  lemma ChunksConsJoin(rows: seq<Row>, n: nat, rest: seq<seq<Row>>)
    requires n <= |rows| && Concat(rest) == rows[n..]
    ensures Concat([rows[..n]] + rest) == rows
  {
    assert ([rows[..n]] + rest)[1..] == rest;
    assert rows == rows[..n] + rows[n..];
  }

  /** Every row of the leading run or of a later group belongs to the rows. */
  lemma ChunksConsMembers(rows: seq<Row>, n: nat, rest: seq<seq<Row>>)
    requires n <= |rows|
    requires forall i, j :: 0 <= i < |rest| && 0 <= j < |rest[i]| ==> rest[i][j] in rows[n..]
    ensures forall i, j :: 0 <= i < |rest| + 1 && 0 <= j < |([rows[..n]] + rest)[i]| ==>
      ([rows[..n]] + rest)[i][j] in rows
  {
    var chunks := [rows[..n]] + rest;
    forall i, j | 0 <= i < |chunks| && 0 <= j < |chunks[i]| ensures chunks[i][j] in rows {
      if i == 0 {
        assert chunks[i][j] == rows[j];
      } else {
        assert chunks[i] == rest[i - 1];
        var k :| 0 <= k < |rows[n..]| && rows[n..][k] == chunks[i][j];
        assert rows[n + k] == chunks[i][j];
      }
    }
  }

  /** The leading run and the later groups each share one key, and neighbours differ. */
  lemma ChunksConsKeys(rows: seq<Row>, n: nat, rest: seq<seq<Row>>)
    requires 1 <= n <= |rows|
    requires forall i :: 0 <= i < n ==> KeyOf(rows[i]) == KeyOf(rows[0])
    requires rest != [] ==> n < |rows| && rest[0] != [] && rest[0][0] == rows[n]
    requires n < |rows| ==> KeyOf(rows[n]) != KeyOf(rows[0])
    requires forall i :: 0 <= i < |rest| ==> rest[i] != []
    requires forall i, j :: 0 <= i < |rest| && 0 <= j < |rest[i]| ==> KeyOf(rest[i][j]) == KeyOf(rest[i][0])
    requires forall i :: 0 < i < |rest| ==> KeyOf(rest[i][0]) != KeyOf(rest[i - 1][0])
    ensures var chunks := [rows[..n]] + rest;
      && (forall i :: 0 <= i < |chunks| ==> chunks[i] != [])
      && (forall i, j :: 0 <= i < |chunks| && 0 <= j < |chunks[i]| ==> KeyOf(chunks[i][j]) == KeyOf(chunks[i][0]))
      && (forall i :: 0 < i < |chunks| ==> KeyOf(chunks[i][0]) != KeyOf(chunks[i - 1][0]))
  {
    var chunks := [rows[..n]] + rest;
    assert chunks[0] == rows[..n];
    assert forall i :: 0 < i < |chunks| ==> chunks[i] == rest[i - 1];
  }

  /** The first group of the remainder starts with the row the leading run stops at. */
  lemma ChunksConsBoundary(rows: seq<Row>, n: nat, rest: seq<seq<Row>>)
    requires n <= |rows| && Concat(rest) == rows[n..]
    requires forall i :: 0 <= i < |rest| ==> rest[i] != []
    ensures rest != [] ==> n < |rows| && rest[0][0] == rows[n]
  {
    if rest != [] {
      assert Concat(rest) == rest[0] + Concat(rest[1..]);
    }
  }

  // ---------------------------------------------------------------------------
  // Rebuilding one group

  /** `_is_orderbook_snapshot`: the group's first row was written for a snapshot. */
  predicate IsSnapshotGroup(values: seq<Row>)
    requires values != []
  {
    values[0].typ == SnapshotTypeName
  }

  /** The instrument ids a group mentions. */
  function InstrumentIds(values: seq<Row>): set<string> {
    set v | v in values :: v.instrumentId
  }

  /** All rows of a non-empty group name the instrument of its first row. */
  predicate SingleInstrument(values: seq<Row>) {
    values != [] && forall i :: 0 <= i < |values| ==> values[i].instrumentId == values[0].instrumentId
  }

  /** The set of instrument ids has exactly one member iff the group is single-instrument. */
  lemma OneInstrumentId(values: seq<Row>)
    ensures |InstrumentIds(values)| == 1 <==> SingleInstrument(values)
  {
    if SingleInstrument(values) {
      assert InstrumentIds(values) == {values[0].instrumentId};
    }
    if |InstrumentIds(values)| == 1 {
      var id :| id in InstrumentIds(values);
      var others := InstrumentIds(values) - {id};
      assert InstrumentIds(values) == others + {id};
      assert |others| == 0;
      assert InstrumentIds(values) == {id};
      forall i | 0 <= i < |values| ensures values[i].instrumentId == values[0].instrumentId {
        assert values[i].instrumentId in InstrumentIds(values);
        assert values[0].instrumentId in InstrumentIds(values);
      }
    }
  }

  /** `(price, size)` of the rows whose side is `sideName`, in row order. */
  function SideLevels(rows: seq<Row>, sideName: string): seq<Level> {
    if rows == [] then []
    else
      (if rows[0].side == Some(sideName) then [Level(rows[0].price, rows[0].size)] else [])
      + SideLevels(rows[1..], sideName)
  }

  /**
   * Among rows whose sides all name an order, every row becomes exactly one
   * level, a bid or an ask.
   */
  lemma {:induction false} SideLevelsSplit(rows: seq<Row>)
    requires forall i :: 0 <= i < |rows| ==> rows[i].side == Some(BuyName) || rows[i].side == Some(SellName)
    ensures |SideLevels(rows, BuyName)| + |SideLevels(rows, SellName)| == |rows|
  {
    if rows != [] {
      SideLevelsSplit(rows[1..]);
    }
  }

  /**
   * `_build_order_book_snapshot`: fails unless the group names exactly one
   * instrument and has at least two rows; drops the first (CLEAR) row, takes
   * bids from the BUY rows and asks from the SELL rows that follow it, and the
   * instrument and timestamps from the second row.
   */
  function BuildSnapshot(values: seq<Row>): (r: Result<BookData, DecodeError>)
    ensures r == Err(MixedInstruments) <==> !SingleInstrument(values)
    ensures r == Err(NotEnoughValues) <==> SingleInstrument(values) && |values| < 2
    ensures r.Ok? <==> SingleInstrument(values) && |values| >= 2
    ensures r.Ok? ==>
      && r.value.Snapshot?
      && r.value.snapshot.instrumentId == values[0].instrumentId
      && r.value.snapshot.tsEvent == values[1].tsEvent
      && r.value.snapshot.tsInit == values[1].tsInit
      && r.value.snapshot.bids == SideLevels(values[1..], BuyName)
      && r.value.snapshot.asks == SideLevels(values[1..], SellName)
  {
    OneInstrumentId(values);
    if |InstrumentIds(values)| != 1 then Err(MixedInstruments)
    else if |values| < 2 then Err(NotEnoughValues)
    else
      Ok(Snapshot(OrderBookSnapshot(
        values[1].instrumentId,
        SideLevels(values[1..], BuyName),
        SideLevels(values[1..], SellName),
        values[1].tsEvent,
        values[1].tsInit)))
  }

  /**
   * `_build_order_book_deltas`: one batch holding every row of the group, in
   * order, with the instrument and timestamps of the first row.
   */
  function BuildDeltas(values: seq<Row>): (r: BookData)
    requires values != [] && AllSidesValid(values)
    ensures r.Deltas? && |r.deltas.deltas| == |values|
    ensures r.deltas.instrumentId == values[0].instrumentId
    ensures r.deltas.tsEvent == values[0].tsEvent && r.deltas.tsInit == values[0].tsInit
    ensures forall i :: 0 <= i < |values| ==> r.deltas.deltas[i] == FromDict(values[i])
  {
    Deltas(OrderBookDeltas(
      values[0].instrumentId,
      seq(|values|, i requires 0 <= i < |values| => FromDict(values[i])),
      values[0].tsEvent,
      values[0].tsInit))
  }

  /** What `deserialize` appends for one group. */
  function BuildGroup(chunk: seq<Row>): (r: Result<BookData, DecodeError>)
    requires chunk != [] && AllSidesValid(chunk)
    ensures r.Ok? ==> (r.value.Snapshot? <==> IsSnapshotGroup(chunk))
    ensures r.Err? ==> IsSnapshotGroup(chunk) && r.error != WrongSides
    ensures IsSnapshotGroup(chunk) ==> r == BuildSnapshot(chunk)
    ensures !IsSnapshotGroup(chunk) ==>
      && r.Ok? && r.value.Deltas? && |r.value.deltas.deltas| == |chunk|
      && (forall i :: 0 <= i < |chunk| ==> r.value.deltas.deltas[i] == FromDict(chunk[i]))
  {
    if IsSnapshotGroup(chunk) then BuildSnapshot(chunk) else Ok(BuildDeltas(chunk))
  }

  /** Each group is non-empty and has acceptable sides. */
  predicate GroupsDecodable(chunks: seq<seq<Row>>) {
    forall i :: 0 <= i < |chunks| ==> chunks[i] != [] && AllSidesValid(chunks[i])
  }

  /** The loop of `deserialize` over the groups; stops at the first failing group. */
  function BuildAll(chunks: seq<seq<Row>>): (r: Result<seq<BookData>, DecodeError>)
    requires GroupsDecodable(chunks)
    ensures r.Ok? ==> |r.value| == |chunks|
    ensures r.Ok? ==> forall i :: 0 <= i < |chunks| ==> BuildGroup(chunks[i]) == Ok(r.value[i])
    ensures r.Err? ==> r.error != WrongSides
    decreases |chunks|
  {
    if chunks == [] then Ok([])
    else
      var n := |chunks| - 1;
      match BuildAll(chunks[..n])
      case Err(e) => Err(e)
      case Ok(results) =>
        match BuildGroup(chunks[n])
        case Err(e) => Err(e)
        case Ok(x) => Ok(results + [x])
  }

  // ---------------------------------------------------------------------------
  // The whole decoder

  /** The order of `sorted(results, key=lambda x: x.ts_event)`. */
  predicate DataBefore(a: BookData, b: BookData) {
    TsEvent(a) < TsEvent(b)
  }

  lemma DataOrder()
    ensures StrictWeakOrder(DataBefore)
  {
  }

  function SortByTs(results: seq<BookData>): seq<BookData> {
    Sort(results, DataBefore)
  }

  lemma {:induction false} GroupsOfSortedDecodable(data: seq<Row>)
    requires AllSidesValid(data)
    ensures GroupsDecodable(Chunks(SortRows(data)))
  {
    var sorted: seq<Row> := SortRows(data);
    var chunks: seq<seq<Row>> := Chunks(sorted);
    forall i: int, j: int | 0 <= i < |chunks| && 0 <= j < |chunks[i]| ensures ValidSide(chunks[i][j].side) {
      assert chunks[i][j] in multiset(sorted);
      assert chunks[i][j] in data;
    }
  }

  /** The specification of `deserialize`. */
  function Decode(data: seq<Row>): Result<seq<BookData>, DecodeError> {
    if !AllSidesValid(data) then Err(WrongSides)
    else
      GroupsOfSortedDecodable(data);
      match BuildAll(Chunks(SortRows(data)))
      case Err(e) => Err(e)
      case Ok(results) => Ok(SortByTs(results))
  }

  /**
   * `deserialize`: checks the sides, then walks the groups of the sorted rows,
   * appending one event per group, and sorts the events by event time.
   */
  method Deserialize(data: seq<Row>) returns (r: Result<seq<BookData>, DecodeError>)
    ensures r == Decode(data)
  {
    if !AllSidesValid(data) {
      return Err(WrongSides);
    }
    GroupsOfSortedDecodable(data);
    var chunks := Chunks(SortRows(data));
    var results: seq<BookData> := [];
    var i := 0;
    while i < |chunks|
      invariant 0 <= i <= |chunks|
      invariant BuildAll(chunks[..i]) == Ok(results)
    {
      var chunk := chunks[i];
      assert chunk != [] && AllSidesValid(chunk);
      if IsSnapshotGroup(chunk) {
        var snapshot := BuildSnapshot(chunk);
        if snapshot.Err? {
          BuildAllStops(chunks, i);
          return Err(snapshot.error);
        }
        BuildAllStep(chunks, i, results);
        results := results + [snapshot.value];
      } else if |chunk| >= 1 {
        BuildAllStep(chunks, i, results);
        results := results + [BuildDeltas(chunk)];
      }
      i := i + 1;
    }
    assert chunks[..i] == chunks;
    return Ok(SortByTs(results));
  }

  /** One more group that rebuilds extends the loop's results by its event. */
  lemma BuildAllStep(chunks: seq<seq<Row>>, i: nat, results: seq<BookData>)
    requires GroupsDecodable(chunks) && i < |chunks| && BuildAll(chunks[..i]) == Ok(results)
    requires BuildGroup(chunks[i]).Ok?
    ensures BuildAll(chunks[..i + 1]) == Ok(results + [BuildGroup(chunks[i]).value])
  {
    assert chunks[..i + 1][..i] == chunks[..i];
  }

  /** A failing group makes the whole loop fail with its error. */
  lemma {:induction false} BuildAllStops(chunks: seq<seq<Row>>, i: nat)
    requires GroupsDecodable(chunks) && i < |chunks| && BuildAll(chunks[..i]).Ok?
    requires BuildGroup(chunks[i]).Err?
    ensures BuildAll(chunks) == Err(BuildGroup(chunks[i]).error)
    decreases |chunks| - i
  {
    if i + 1 < |chunks| {
      var n := |chunks| - 1;
      assert chunks[..n][..i] == chunks[..i];
      assert chunks[..n][i] == chunks[i];
      BuildAllStops(chunks[..n], i);
    } else {
      assert chunks[..|chunks| - 1] == chunks[..i];
    }
  }
}

/** What the decoder guarantees: grouping, rejection, success and ordering. */
module OrderBookDecoderProperties {
  import opened Wrappers
  import opened BookData
  import opened StableSort
  import opened OrderBookDecoder

  /** The rows of each key stand next to each other. */
  predicate Contiguous(rows: seq<Row>) {
    forall i, j, l :: 0 <= i < j < l < |rows| && KeyOf(rows[i]) == KeyOf(rows[l]) ==>
      KeyOf(rows[j]) == KeyOf(rows[i])
  }

  /** Sorting by key brings the rows of each key together. */
  lemma SortedContiguous(rows: seq<Row>)
    requires Sorted(rows, RowBefore)
    ensures Contiguous(rows)
  {
    forall i, j, l | 0 <= i < j < l < |rows| && KeyOf(rows[i]) == KeyOf(rows[l])
      ensures KeyOf(rows[j]) == KeyOf(rows[i])
    {
      var ki, kj := KeyOf(rows[i]), KeyOf(rows[j]);
      assert !RowBefore(rows[j], rows[i]) && !RowBefore(rows[l], rows[j]);
      if ki != kj {
        KeyLessTotal(ki, kj);
      }
    }
  }

  /** In contiguous rows, no row after the leading run shares the first row's key. */
  lemma RunIsWhole(rows: seq<Row>)
    requires rows != [] && Contiguous(rows)
    ensures forall j :: RunLength(rows) <= j < |rows| ==> KeyOf(rows[j]) != KeyOf(rows[0])
  {
    var n := RunLength(rows);
    forall j | n <= j < |rows| ensures KeyOf(rows[j]) != KeyOf(rows[0]) {
      if j > n {
        assert KeyOf(rows[n]) != KeyOf(rows[0]);
      }
    }
  }

  lemma ContiguousSuffix(rows: seq<Row>, n: nat)
    requires Contiguous(rows) && n <= |rows|
    ensures Contiguous(rows[n..])
  {
    var tail := rows[n..];
    forall a, b, c | 0 <= a < b < c < |tail| && KeyOf(tail[a]) == KeyOf(tail[c])
      ensures KeyOf(tail[b]) == KeyOf(tail[a])
    {
      assert tail[a] == rows[n + a] && tail[b] == rows[n + b] && tail[c] == rows[n + c];
    }
  }

  /** In contiguous rows, the first group holds every row of its key. */
  lemma FirstGroupIsKeyGroup(rows: seq<Row>)
    requires rows != [] && Contiguous(rows)
    ensures Chunks(rows)[0] == WithKey(rows, KeyOf(rows[0]))
  {
    RunIsWhole(rows);
    ChunksUnfold(rows);
    RunIsKeyGroup(rows, RunLength(rows), KeyOf(rows[0]));
  }

  /** A leading run of key `k` that no later row shares is all the rows of `k`. */
  lemma RunIsKeyGroup(rows: seq<Row>, n: nat, k: RowKey)
    requires n <= |rows|
    requires forall i :: 0 <= i < n ==> KeyOf(rows[i]) == k
    requires forall j :: n <= j < |rows| ==> KeyOf(rows[j]) != k
    ensures WithKey(rows, k) == rows[..n]
  {
    var head, tail := rows[..n], rows[n..];
    assert rows == head + tail;
    WithKeyConcat(head, tail, k);
    WithKeyAll(head, k);
    WithKeyNone(tail, k);
  }

  /**
   * In contiguous (for instance, sorted) rows, each group `groupby` yields is
   * exactly the rows of its key: no key is split over two groups.
   */
  lemma {:induction false} GroupIsKeyGroup(rows: seq<Row>, i: nat)
    requires Contiguous(rows) && i < |Chunks(rows)|
    ensures Chunks(rows)[i] == WithKey(rows, KeyOf(Chunks(rows)[i][0]))
    decreases |rows|
  {
    if i == 0 {
      FirstGroupIsKeyGroup(rows);
    } else {
      var n := RunLength(rows);
      var tail := rows[n..];
      ChunksTail(rows, i);
      var c := Chunks(tail)[i - 1];
      var k := KeyOf(c[0]);
      ContiguousSuffix(rows, n);
      GroupIsKeyGroup(tail, i - 1);
      LaterKeyDiffers(rows, c[0]);
      SkipRun(rows, n, k);
    }
  }

  lemma LaterKeyDiffers(rows: seq<Row>, x: Row)
    requires rows != [] && Contiguous(rows) && x in rows[RunLength(rows)..]
    ensures KeyOf(x) != KeyOf(rows[0])
  {
    var n := RunLength(rows);
    RunIsWhole(rows);
    var j :| 0 <= j < |rows[n..]| && rows[n..][j] == x;
    assert rows[n + j] == x;
  }

  lemma ChunksTail(rows: seq<Row>, i: nat)
    requires 0 < i < |Chunks(rows)|
    ensures rows != [] && i - 1 < |Chunks(rows[RunLength(rows)..])|
    ensures Chunks(rows)[i] == Chunks(rows[RunLength(rows)..])[i - 1]
  {
    ChunksUnfold(rows);
  }

  /** Rows of other keys in front do not change the rows of key `k`. */
  lemma SkipRun(rows: seq<Row>, n: nat, k: RowKey)
    requires n <= |rows|
    requires forall i :: 0 <= i < n ==> KeyOf(rows[i]) != k
    ensures WithKey(rows, k) == WithKey(rows[n..], k)
  {
    var head, tail := rows[..n], rows[n..];
    assert rows == head + tail;
    WithKeyConcat(head, tail, k);
    WithKeyNone(head, k);
  }

  /** Every row's key is the key of some group. */
  lemma KeyHasGroup(rows: seq<Row>, x: Row)
    requires x in rows
    ensures exists i :: 0 <= i < |Chunks(rows)| && KeyOf(Chunks(rows)[i][0]) == KeyOf(x)
  {
    var chunks := Chunks(rows);
    InConcat(chunks, x);
    var i, j :| 0 <= i < |chunks| && 0 <= j < |chunks[i]| && chunks[i][j] == x;
    assert KeyOf(chunks[i][0]) == KeyOf(x);
  }

  /**
   * The groups `deserialize` rebuilds from: each is the input's rows of one
   * key, in input order, and names one instrument.
   */
  lemma DecodeGroups(data: seq<Row>)
    ensures var chunks := Chunks(SortRows(data));
      forall i :: 0 <= i < |chunks| ==>
        chunks[i] == WithKey(data, KeyOf(chunks[i][0])) && SingleInstrument(chunks[i])
  {
    var sorted := SortRows(data);
    var chunks := Chunks(sorted);
    RowOrder();
    SortSorted(data, RowBefore);
    SortedContiguous(sorted);
    forall i | 0 <= i < |chunks|
      ensures chunks[i] == WithKey(data, KeyOf(chunks[i][0])) && SingleInstrument(chunks[i])
    {
      GroupIsKeyGroup(sorted, i);
      SortRowsStable(data, KeyOf(chunks[i][0]));
    }
  }

  /** `BuildAll` succeeds exactly when every group rebuilds. */
  lemma {:induction false} BuildAllOkIff(chunks: seq<seq<Row>>)
    requires GroupsDecodable(chunks)
    ensures BuildAll(chunks).Ok? <==> forall i :: 0 <= i < |chunks| ==> BuildGroup(chunks[i]).Ok?
    decreases |chunks|
  {
    if chunks != [] {
      var n := |chunks| - 1;
      BuildAllOkIff(chunks[..n]);
      assert forall i :: 0 <= i < n ==> chunks[..n][i] == chunks[i];
    }
  }

  /** `BuildAll` over single-instrument groups can only fail for too few rows. */
  lemma {:induction false} BuildAllErrors(chunks: seq<seq<Row>>)
    requires GroupsDecodable(chunks)
    requires forall i :: 0 <= i < |chunks| ==> SingleInstrument(chunks[i])
    ensures BuildAll(chunks).Err? ==> BuildAll(chunks).error == NotEnoughValues
    decreases |chunks|
  {
    if chunks != [] {
      var n := |chunks| - 1;
      BuildAllErrors(chunks[..n]);
    }
  }

  /** A rebuilt group: anything but a snapshot group, or one with a level row. */
  predicate GroupRebuilds(g: seq<Row>) {
    g == [] || g[0].typ != SnapshotTypeName || |g| >= 2
  }

  /** Decoding fails with `WrongSides` exactly when some row has an unaccepted side. */
  lemma DecodeRejectsWrongSides(data: seq<Row>)
    ensures Decode(data) == Err(WrongSides)
        <==> exists i :: 0 <= i < |data| && !ValidSide(data[i].side)
  {
  }

  /**
   * Decoding succeeds exactly when every side is accepted and, for every key,
   * the rows of that key do not form a lone snapshot row; otherwise it fails
   * with `WrongSides` or `NotEnoughValues`, never with `MixedInstruments`.
   */
  lemma DecodeSucceedsIff(data: seq<Row>)
    ensures Decode(data).Ok? <==>
      AllSidesValid(data)
      && forall i :: 0 <= i < |data| ==> GroupRebuilds(WithKey(data, KeyOf(data[i])))
    ensures Decode(data) != Err(MixedInstruments)
  {
    if AllSidesValid(data) {
      var chunks := Chunks(SortRows(data));
      GroupsOfSortedDecodable(data);
      LoopSucceedsIff(data);
      if forall i :: 0 <= i < |data| ==> GroupRebuilds(WithKey(data, KeyOf(data[i]))) {
        KeyGroupsRebuild(data);
      }
      if forall i :: 0 <= i < |chunks| ==> GroupRebuilds(chunks[i]) {
        GroupsRebuild(data);
      }
    }
  }

  /** The loop over the groups succeeds exactly when each group rebuilds, and fails only for too few rows. */
  lemma LoopSucceedsIff(data: seq<Row>)
    requires AllSidesValid(data)
    ensures GroupsDecodable(Chunks(SortRows(data)))
    ensures var chunks := Chunks(SortRows(data));
      && (BuildAll(chunks).Ok? <==> forall i :: 0 <= i < |chunks| ==> GroupRebuilds(chunks[i]))
      && (BuildAll(chunks).Err? ==> BuildAll(chunks).error == NotEnoughValues)
  {
    var chunks := Chunks(SortRows(data));
    GroupsOfSortedDecodable(data);
    DecodeGroups(data);
    BuildAllOkIff(chunks);
    BuildAllErrors(chunks);
    forall i | 0 <= i < |chunks| ensures BuildGroup(chunks[i]).Ok? <==> GroupRebuilds(chunks[i]) {
    }
  }

  /** If every key's rows rebuild, so does every group. */
  lemma KeyGroupsRebuild(data: seq<Row>)
    requires forall i :: 0 <= i < |data| ==> GroupRebuilds(WithKey(data, KeyOf(data[i])))
    ensures var chunks := Chunks(SortRows(data));
      forall i :: 0 <= i < |chunks| ==> GroupRebuilds(chunks[i])
  {
    var sorted := SortRows(data);
    var chunks := Chunks(sorted);
    DecodeGroups(data);
    forall i | 0 <= i < |chunks| ensures GroupRebuilds(chunks[i]) {
      var x := chunks[i][0];
      assert x in sorted;
      assert x in multiset(data);
      var j :| 0 <= j < |data| && data[j] == x;
      assert GroupRebuilds(WithKey(data, KeyOf(data[j])));
      assert chunks[i] == WithKey(data, KeyOf(data[j]));
    }
  }

  /** If every group rebuilds, so do the rows of every key. */
  lemma GroupsRebuild(data: seq<Row>)
    requires var chunks := Chunks(SortRows(data));
      forall i :: 0 <= i < |chunks| ==> GroupRebuilds(chunks[i])
    ensures forall i :: 0 <= i < |data| ==> GroupRebuilds(WithKey(data, KeyOf(data[i])))
  {
    var sorted := SortRows(data);
    var chunks := Chunks(sorted);
    DecodeGroups(data);
    forall j | 0 <= j < |data| ensures GroupRebuilds(WithKey(data, KeyOf(data[j]))) {
      assert data[j] in multiset(sorted);
      KeyHasGroup(sorted, data[j]);
    }
  }

  /** The events come out in non-decreasing event time. */
  lemma DecodeSorted(data: seq<Row>)
    requires Decode(data).Ok?
    ensures var events := Decode(data).value;
      forall i, j :: 0 <= i < j < |events| ==> TsEvent(events[i]) <= TsEvent(events[j])
  {
    GroupsOfSortedDecodable(data);
    var results := BuildAll(Chunks(SortRows(data))).value;
    DataOrder();
    SortSorted(results, DataBefore);
  }

  /**
   * Events with equal event times keep the order in which their groups were
   * walked: the final sort is stable.
   */
  lemma DecodeKeepsTieOrder(data: seq<Row>)
    requires Decode(data).Ok?
    ensures AllSidesValid(data) && GroupsDecodable(Chunks(SortRows(data)))
    ensures BuildAll(Chunks(SortRows(data))).Ok?
    ensures forall y :: SameRank(Decode(data).value, y, DataBefore)
                     == SameRank(BuildAll(Chunks(SortRows(data))).value, y, DataBefore)
  {
    GroupsOfSortedDecodable(data);
    var results := BuildAll(Chunks(SortRows(data))).value;
    DataOrder();
    forall y ensures SameRank(SortByTs(results), y, DataBefore) == SameRank(results, y, DataBefore) {
      SortStable(results, y, DataBefore);
    }
  }

  /** Two row lists that hold, key by key, the same rows in the same order. */
  ghost predicate SameKeyGroups(a: seq<Row>, b: seq<Row>) {
    forall k :: WithKey(a, k) == WithKey(b, k)
  }

  /**
   * Decoding depends only on the rows of each key and their order: rows of
   * different keys may be interleaved in any way.
   */
  lemma DecodeRespectsKeyGroups(a: seq<Row>, b: seq<Row>)
    requires SameKeyGroups(a, b)
    ensures Decode(a) == Decode(b)
  {
    RowOrder();
    forall x | x in a ensures x in b {
      InWithKey(a, x);
      assert WithKey(a, KeyOf(x)) == WithKey(b, KeyOf(x));
    }
    forall x | x in b ensures x in a {
      InWithKey(b, x);
      assert WithKey(a, KeyOf(x)) == WithKey(b, KeyOf(x));
    }
    assert AllSidesValid(a) <==> AllSidesValid(b) by {
      if !AllSidesValid(a) {
        var i :| 0 <= i < |a| && !ValidSide(a[i].side);
        assert a[i] in b;
      }
      if !AllSidesValid(b) {
        var i :| 0 <= i < |b| && !ValidSide(b[i].side);
        assert b[i] in a;
      }
    }
    SortSorted(a, RowBefore);
    SortSorted(b, RowBefore);
    forall y ensures SameRank(SortRows(a), y, RowBefore) == SameRank(SortRows(b), y, RowBefore) {
      SameRankIsWithKey(SortRows(a), y);
      SameRankIsWithKey(SortRows(b), y);
      SortRowsStable(a, KeyOf(y));
      SortRowsStable(b, KeyOf(y));
    }
    SortedUnique(SortRows(a), SortRows(b), RowBefore);
  }

  /** Rows that all share one key form a single group. */
  lemma {:induction false} RunLengthOfOneKey(rows: seq<Row>)
    requires rows != []
    requires forall i :: 0 <= i < |rows| ==> KeyOf(rows[i]) == KeyOf(rows[0])
    ensures RunLength(rows) == |rows|
  {
    if |rows| > 1 {
      RunLengthOfOneKey(rows[1..]);
    }
  }

  /** The leading run stops where the key first changes. */
  lemma {:induction false} RunLengthUpTo(rows: seq<Row>, n: nat)
    requires 0 < n < |rows|
    requires forall i :: 0 <= i < n ==> KeyOf(rows[i]) == KeyOf(rows[0])
    requires KeyOf(rows[n]) != KeyOf(rows[0])
    ensures RunLength(rows) == n
  {
    if n > 1 {
      RunLengthUpTo(rows[1..], n - 1);
    }
  }

  lemma OneKeySorted(rows: seq<Row>)
    requires forall i :: 0 <= i < |rows| ==> KeyOf(rows[i]) == KeyOf(rows[0])
    ensures Sorted(rows, RowBefore)
  {
    forall i, j | 0 <= i < j < |rows| ensures !RowBefore(rows[j], rows[i]) {
      KeyLessIrreflexive(KeyOf(rows[0]));
    }
  }

  /** Rows of one key form exactly one group. */
  lemma OneKeyOneChunk(rows: seq<Row>)
    requires rows != []
    requires forall i :: 0 <= i < |rows| ==> KeyOf(rows[i]) == KeyOf(rows[0])
    ensures Chunks(rows) == [rows]
  {
    RunLengthOfOneKey(rows);
    assert rows[..|rows|] == rows;
    assert rows[|rows|..] == [];
    assert Chunks(rows[|rows|..]) == [];
  }

  /** Rows of one key are already sorted and form exactly one group. */
  lemma OneKeyOneGroup(rows: seq<Row>)
    requires rows != []
    requires forall i :: 0 <= i < |rows| ==> KeyOf(rows[i]) == KeyOf(rows[0])
    ensures SortRows(rows) == rows
    ensures Chunks(rows) == [rows]
  {
    OneKeySorted(rows);
    RowOrder();
    SortOfSorted(rows, RowBefore);
    OneKeyOneChunk(rows);
  }

  /** The rows of two events with different keys, in the order of their keys, are sorted. */
  lemma TwoGroupsSorted(r1: seq<Row>, k1: RowKey, r2: seq<Row>, k2: RowKey)
    requires KeyLess(k1, k2)
    requires forall i :: 0 <= i < |r1| ==> KeyOf(r1[i]) == k1
    requires forall i :: 0 <= i < |r2| ==> KeyOf(r2[i]) == k2
    ensures Sorted(r1 + r2, RowBefore)
  {
    var rows := r1 + r2;
    KeyLessIrreflexive(k1);
    KeyLessIrreflexive(k2);
    if KeyLess(k2, k1) {
      KeyLessTransitive(k1, k2, k1);
    }
    forall i, j | 0 <= i < j < |rows| ensures !RowBefore(rows[j], rows[i]) {
      assert KeyOf(rows[i]) == (if i < |r1| then k1 else k2);
      assert KeyOf(rows[j]) == (if j < |r1| then k1 else k2);
    }
  }

  /** Rows of one key decode to what their single group rebuilds. */
  lemma DecodeOneGroup(rows: seq<Row>)
    requires rows != [] && AllSidesValid(rows)
    requires forall i :: 0 <= i < |rows| ==> KeyOf(rows[i]) == KeyOf(rows[0])
    ensures BuildGroup(rows).Ok? ==> Decode(rows) == Ok([BuildGroup(rows).value])
    ensures BuildGroup(rows).Err? ==> Decode(rows) == Err(BuildGroup(rows).error)
  {
    OneKeyOneGroup(rows);
    BuildOne(rows);
    if BuildGroup(rows).Ok? {
      SortOne(BuildGroup(rows).value);
    }
  }

  /** The loop over a single group yields what that group rebuilds. */
  lemma BuildOne(g: seq<Row>)
    requires g != [] && AllSidesValid(g)
    ensures GroupsDecodable([g])
    ensures BuildGroup(g).Ok? ==> BuildAll([g]) == Ok([BuildGroup(g).value])
    ensures BuildGroup(g).Err? ==> BuildAll([g]) == Err(BuildGroup(g).error)
  {
    assert [g][..0] == [];
    assert BuildAll([g][..0]) == Ok([]);
    if BuildGroup(g).Ok? {
      assert [] + [BuildGroup(g).value] == [BuildGroup(g).value];
    }
  }

  /** Sorting one event by time leaves it alone. */
  lemma SortOne(x: BookData)
    ensures SortByTs([x]) == [x]
  {
    assert [x][1..] == [];
    assert Sort([x][1..], DataBefore) == [];
  }

  /**
   * Rows of two keys, all of the smaller key first, decode to the two events
   * their groups rebuild, sorted by event time.
   */
  lemma DecodeTwoGroups(r1: seq<Row>, k1: RowKey, r2: seq<Row>, k2: RowKey)
    requires r1 != [] && r2 != [] && AllSidesValid(r1) && AllSidesValid(r2)
    requires KeyLess(k1, k2)
    requires forall i :: 0 <= i < |r1| ==> KeyOf(r1[i]) == k1
    requires forall i :: 0 <= i < |r2| ==> KeyOf(r2[i]) == k2
    requires BuildGroup(r1).Ok? && BuildGroup(r2).Ok?
    ensures var x1, x2 := BuildGroup(r1).value, BuildGroup(r2).value;
      Decode(r1 + r2) == Ok(if TsEvent(x2) < TsEvent(x1) then [x2, x1] else [x1, x2])
  {
    var joined := r1 + r2;
    KeyLessIrreflexive(k1);
    TwoGroupsSorted(r1, k1, r2, k2);
    JoinedGroups(r1, k1, r2, k2);
    var x1, x2 := BuildGroup(r1).value, BuildGroup(r2).value;
    BuildTwo(r1, r2);
    SortTwo(x1, x2);
    assert AllSidesValid(joined) by {
      forall i | 0 <= i < |joined| ensures ValidSide(joined[i].side) {
        if i < |r1| {
          assert joined[i] == r1[i];
        } else {
          assert joined[i] == r2[i - |r1|];
        }
      }
    }
    assert Decode(joined) == Ok(SortByTs([x1, x2]));
  }

  /** The two runs of keys, already sorted, are the two groups. */
  lemma JoinedGroups(r1: seq<Row>, k1: RowKey, r2: seq<Row>, k2: RowKey)
    requires r1 != [] && r2 != [] && k1 != k2
    requires forall i :: 0 <= i < |r1| ==> KeyOf(r1[i]) == k1
    requires forall i :: 0 <= i < |r2| ==> KeyOf(r2[i]) == k2
    requires Sorted(r1 + r2, RowBefore)
    ensures SortRows(r1 + r2) == r1 + r2 && Chunks(r1 + r2) == [r1, r2]
  {
    RowOrder();
    SortOfSorted(r1 + r2, RowBefore);
    TwoRunsTwoChunks(r1, k1, r2, k2);
  }

  lemma TwoRunsTwoChunks(r1: seq<Row>, k1: RowKey, r2: seq<Row>, k2: RowKey)
    requires r1 != [] && r2 != [] && k1 != k2
    requires forall i :: 0 <= i < |r1| ==> KeyOf(r1[i]) == k1
    requires forall i :: 0 <= i < |r2| ==> KeyOf(r2[i]) == k2
    ensures Chunks(r1 + r2) == [r1, r2]
  {
    var joined := r1 + r2;
    var n := |r1|;
    assert joined[..n] == r1 && joined[n..] == r2;
    assert forall i :: 0 <= i < n ==> joined[i] == r1[i];
    assert joined[n] == r2[0];
    RunLengthUpTo(joined, n);
    OneKeyOneChunk(r2);
    ChunksUnfold(joined);
  }

  lemma ChunksUnfold(rows: seq<Row>)
    requires rows != []
    ensures Chunks(rows) == [rows[..RunLength(rows)]] + Chunks(rows[RunLength(rows)..])
  {
  }

  lemma BuildTwo(r1: seq<Row>, r2: seq<Row>)
    requires r1 != [] && r2 != [] && AllSidesValid(r1) && AllSidesValid(r2)
    requires BuildGroup(r1).Ok? && BuildGroup(r2).Ok?
    ensures GroupsDecodable([r1, r2])
    ensures BuildAll([r1, r2]) == Ok([BuildGroup(r1).value, BuildGroup(r2).value])
  {
    var x1, x2 := BuildGroup(r1).value, BuildGroup(r2).value;
    assert [r1][..0] == [];
    assert BuildAll([r1][..0]) == Ok([]);
    assert BuildAll([r1]) == Ok([] + [x1]);
    assert [] + [x1] == [x1];
    var both := [r1, r2];
    assert both[..1] == [r1] && both[1] == r2;
    assert BuildAll(both[..1]) == Ok([x1]);
    assert BuildAll(both) == Ok([x1] + [x2]);
    assert [x1] + [x2] == [x1, x2];
  }

  /** Sorting two events by time swaps them only when the second is strictly earlier. */
  lemma SortTwo(x1: BookData, x2: BookData)
    ensures SortByTs([x1, x2]) == if TsEvent(x2) < TsEvent(x1) then [x2, x1] else [x1, x2]
  {
    assert [x1, x2][1..] == [x2];
    SortOne(x2);
  }

  /** Rows made of two keys decode like all rows of the first key followed by all of the second. */
  lemma DecodeInterleaving(rows: seq<Row>, r1: seq<Row>, k1: RowKey, r2: seq<Row>, k2: RowKey)
    requires k1 != k2
    requires WithKey(rows, k1) == r1 && WithKey(rows, k2) == r2
    requires forall i :: 0 <= i < |rows| ==> KeyOf(rows[i]) == k1 || KeyOf(rows[i]) == k2
    requires forall i :: 0 <= i < |r1| ==> KeyOf(r1[i]) == k1
    requires forall i :: 0 <= i < |r2| ==> KeyOf(r2[i]) == k2
    ensures Decode(rows) == Decode(r1 + r2)
  {
    var joined := r1 + r2;
    forall k ensures WithKey(rows, k) == WithKey(joined, k) {
      InterleavingKey(rows, r1, k1, r2, k2, k);
    }
    DecodeRespectsKeyGroups(rows, joined);
  }

  /** Any one key has the same rows in the interleaving as in the two runs. */
  lemma InterleavingKey(rows: seq<Row>, r1: seq<Row>, k1: RowKey, r2: seq<Row>, k2: RowKey, k: RowKey)
    requires k1 != k2
    requires WithKey(rows, k1) == r1 && WithKey(rows, k2) == r2
    requires forall i :: 0 <= i < |rows| ==> KeyOf(rows[i]) == k1 || KeyOf(rows[i]) == k2
    requires forall i :: 0 <= i < |r1| ==> KeyOf(r1[i]) == k1
    requires forall i :: 0 <= i < |r2| ==> KeyOf(r2[i]) == k2
    ensures WithKey(rows, k) == WithKey(r1 + r2, k)
  {
    WithKeyConcat(r1, r2, k);
    if k == k1 {
      WithKeyAll(r1, k1);
      WithKeyNone(r2, k1);
    } else if k == k2 {
      WithKeyNone(r1, k2);
      WithKeyAll(r2, k2);
    } else {
      WithKeyNone(rows, k);
      WithKeyNone(r1, k);
      WithKeyNone(r2, k);
    }
  }

  /**
   * Rows of two keys decode to the two events their key groups rebuild,
   * sorted by event time, however the two groups are interleaved.
   */
  lemma DecodeTwoInterleavedGroups(rows: seq<Row>, r1: seq<Row>, k1: RowKey, x1: BookData,
                                   r2: seq<Row>, k2: RowKey, x2: BookData)
    requires r1 != [] && r2 != [] && AllSidesValid(r1) && AllSidesValid(r2)
    requires KeyLess(k1, k2)
    requires WithKey(rows, k1) == r1 && WithKey(rows, k2) == r2
    requires forall i :: 0 <= i < |rows| ==> KeyOf(rows[i]) == k1 || KeyOf(rows[i]) == k2
    requires forall i :: 0 <= i < |r1| ==> KeyOf(r1[i]) == k1
    requires forall i :: 0 <= i < |r2| ==> KeyOf(r2[i]) == k2
    requires BuildGroup(r1) == Ok(x1) && BuildGroup(r2) == Ok(x2)
    ensures Decode(rows) == Ok(if TsEvent(x2) < TsEvent(x1) then [x2, x1] else [x1, x2])
  {
    KeyLessIrreflexive(k1);
    DecodeInterleaving(rows, r1, k1, r2, k2);
    DecodeTwoGroups(r1, k1, r2, k2);
  }
}
