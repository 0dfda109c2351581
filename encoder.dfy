/**
 * The encoder: one order-book event becomes an ordered list of flat rows.
 *
 * A delta gives one row, a batch one row per member delta, and a snapshot a
 * synthetic CLEAR row followed by one ADD row per bid (side BUY) and then one
 * per ask (side SELL). Every row carries the name of the kind it came from,
 * and the final row of the list is marked `_last`.
 */
module OrderBookEncoder {
  import opened Wrappers
  import opened BookData

  /** `_parse_delta`: the delta's `to_dict` row tagged with `typeName`. */
  function ParseDelta(delta: OrderBookDelta, typeName: string): (row: Row)
    ensures ValidSide(row.side) && FromDict(row) == delta
    ensures row.typ == typeName && !row.last
  {
    match delta.order
    case None =>
      Row(delta.instrumentId, delta.action, None, 0, 0, delta.tsEvent, delta.tsInit, typeName, false)
    case Some(o) =>
      Row(delta.instrumentId, delta.action, Some(SideName(o.side)), o.price, o.size,
          delta.tsEvent, delta.tsInit, typeName, false)
  }

  /** The CLEAR delta a snapshot starts with: no order, the snapshot's id and times. */
  function ClearDelta(s: OrderBookSnapshot): OrderBookDelta {
    OrderBookDelta(s.instrumentId, Clear, None, s.tsEvent, s.tsInit)
  }

  /** The ADD delta for one level of a snapshot on the given side. */
  function AddDelta(s: OrderBookSnapshot, side: OrderSide, level: Level): OrderBookDelta {
    OrderBookDelta(s.instrumentId, Add, Some(BookOrder(level.price, level.size, side)), s.tsEvent, s.tsInit)
  }

  /** The snapshot's levels, each paired with its side: all bids, then all asks. */
  function Orders(s: OrderBookSnapshot): (orders: seq<(OrderSide, Level)>)
    ensures |orders| == |s.bids| + |s.asks|
    ensures forall i :: 0 <= i < |s.bids| ==> orders[i] == (Buy, s.bids[i])
    ensures forall i :: 0 <= i < |s.asks| ==> orders[|s.bids| + i] == (Sell, s.asks[i])
  {
    seq(|s.bids|, i requires 0 <= i < |s.bids| => (Buy, s.bids[i]))
    + seq(|s.asks|, i requires 0 <= i < |s.asks| => (Sell, s.asks[i]))
  }

  /** The row of one (side, level) pair of a snapshot. */
  function AddRow(s: OrderBookSnapshot, order: (OrderSide, Level)): Row {
    ParseDelta(AddDelta(s, order.0, order.1), SnapshotTypeName)
  }

  /** The rows of one event before the final row is marked. */
  function UnmarkedRows(data: BookData): seq<Row> {
    match data
    case Delta(d) => [ParseDelta(d, DeltaTypeName)]
    case Deltas(b) =>
      seq(|b.deltas|, i requires 0 <= i < |b.deltas| => ParseDelta(b.deltas[i], DeltasTypeName))
    case Snapshot(s) =>
      var orders := Orders(s);
      [ParseDelta(ClearDelta(s), SnapshotTypeName)]
      + seq(|orders|, i requires 0 <= i < |orders| => AddRow(s, orders[i]))
  }

  /** Sets `_last` on the final row, if there is one. */
  function MarkLast(rows: seq<Row>): seq<Row> {
    if rows == [] then [] else rows[|rows| - 1 := rows[|rows| - 1].(last := true)]
  }

  /** The specification of `serialize`. */
  function Encode(data: BookData): seq<Row> {
    MarkLast(UnmarkedRows(data))
  }

  /**
   * `serialize`: builds the rows kind by kind, extending the list one row at
   * a time, then marks the final row in place.
   */
  method Serialize(data: BookData) returns (result: seq<Row>)
    ensures result == Encode(data)
  {
    match data {
      case Delta(d) =>
        result := [ParseDelta(d, DeltaTypeName)];
      case Deltas(b) =>
        result := [];
        for i := 0 to |b.deltas|
          invariant |result| == i
          invariant forall k :: 0 <= k < i ==> result[k] == ParseDelta(b.deltas[k], DeltasTypeName)
        {
          result := result + [ParseDelta(b.deltas[i], DeltasTypeName)];
        }
      case Snapshot(s) =>
        result := [ParseDelta(ClearDelta(s), SnapshotTypeName)];
        var orders := Orders(s);
        var adds: seq<Row> := [];
        for i := 0 to |orders|
          invariant |adds| == i
          invariant forall k :: 0 <= k < i ==> adds[k] == AddRow(s, orders[k])
        {
          adds := adds + [AddRow(s, orders[i])];
        }
        result := result + adds;
    }
    assert result == UnmarkedRows(data);
    if |result| > 0 {
      result := result[|result| - 1 := result[|result| - 1].(last := true)];
    }
  }

  /** A single delta becomes one row, tagged with its own kind and marked last. */
  lemma EncodeDelta(d: OrderBookDelta)
    ensures |Encode(Delta(d))| == 1
    ensures var row := Encode(Delta(d))[0];
      row.typ == DeltaTypeName && row.last && ValidSide(row.side) && FromDict(row) == d
  {
    var row := ParseDelta(d, DeltaTypeName);
    assert Encode(Delta(d)) == [row.(last := true)];
    assert FromDict(row.(last := true)) == FromDict(row);
  }

  /**
   * A batch becomes one row per member delta, in order, each tagged with the
   * batch kind; an empty batch gives no rows.
   */
  lemma EncodeDeltas(b: OrderBookDeltas)
    ensures |Encode(Deltas(b))| == |b.deltas|
    ensures forall i :: 0 <= i < |b.deltas| ==>
      var row := Encode(Deltas(b))[i];
      row.typ == DeltasTypeName && ValidSide(row.side) && FromDict(row) == b.deltas[i]
  {
    var rows := Encode(Deltas(b));
    forall i | 0 <= i < |b.deltas|
      ensures rows[i].typ == DeltasTypeName && ValidSide(rows[i].side) && FromDict(rows[i]) == b.deltas[i]
    {
      var row := ParseDelta(b.deltas[i], DeltasTypeName);
      assert rows[i] == row || rows[i] == row.(last := true);
      assert FromDict(row.(last := true)) == FromDict(row);
    }
  }

  /** The fields every row of a snapshot shares with the snapshot. */
  predicate SnapshotRow(s: OrderBookSnapshot, row: Row) {
    row.typ == SnapshotTypeName && row.instrumentId == s.instrumentId
    && row.tsEvent == s.tsEvent && row.tsInit == s.tsInit
  }

  /** An ADD row holding `level` on the side stored as `sideName`. */
  predicate AddRowOf(row: Row, sideName: string, level: Level) {
    row.action == Add && row.side == Some(sideName) && row.price == level.price && row.size == level.size
  }

  /**
   * A snapshot becomes a CLEAR row with no order, then one ADD/BUY row per bid
   * in bid order, then one ADD/SELL row per ask in ask order; every row carries
   * the snapshot's kind, instrument and timestamps.
   */
  lemma EncodeSnapshot(s: OrderBookSnapshot)
    ensures |Encode(Snapshot(s))| == 1 + |s.bids| + |s.asks|
    ensures var rows := Encode(Snapshot(s));
      && rows[0].action == Clear && rows[0].side == None
      && (forall i :: 0 <= i < |s.bids| ==> AddRowOf(rows[1 + i], BuyName, s.bids[i]))
      && (forall i :: 0 <= i < |s.asks| ==> AddRowOf(rows[1 + |s.bids| + i], SellName, s.asks[i]))
      && (forall i :: 0 <= i < |rows| ==> SnapshotRow(s, rows[i]))
  {
    var unmarked := UnmarkedRows(Snapshot(s));
    UnmarkedSnapshotRows(s);
    MarkLastKeepsFields(unmarked);
  }

  /** The snapshot rows before the final row is marked already have their final shape. */
  lemma UnmarkedSnapshotRows(s: OrderBookSnapshot)
    ensures var rows := UnmarkedRows(Snapshot(s));
      && |rows| == 1 + |s.bids| + |s.asks|
      && rows[0].action == Clear && rows[0].side == None
      && (forall i :: 0 <= i < |s.bids| ==> AddRowOf(rows[1 + i], BuyName, s.bids[i]))
      && (forall i :: 0 <= i < |s.asks| ==> AddRowOf(rows[1 + |s.bids| + i], SellName, s.asks[i]))
      && (forall i :: 0 <= i < |rows| ==> SnapshotRow(s, rows[i]))
  {
  }

  /** Marking the final row changes no column other than `_last`. */
  lemma MarkLastKeepsFields(rows: seq<Row>)
    ensures |MarkLast(rows)| == |rows|
    ensures forall i :: 0 <= i < |rows| ==> MarkLast(rows)[i] == rows[i].(last := MarkLast(rows)[i].last)
  {
  }

  /** Exactly the final row of a non-empty encoding is marked `_last`. */
  lemma EncodeMarksOnlyLast(data: BookData)
    ensures var rows := Encode(data);
      forall i :: 0 <= i < |rows| ==> (rows[i].last <==> i == |rows| - 1)
  {
    var unmarked := UnmarkedRows(data);
    assert forall i :: 0 <= i < |unmarked| ==> !unmarked[i].last;
  }
}
