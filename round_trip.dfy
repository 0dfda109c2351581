/**
 * Encoding followed by decoding: which events come back, and in what form.
 *
 * A single delta comes back as a batch holding just that delta, since the
 * decoder only tells snapshot groups from the rest. A batch comes back as
 * itself when all its deltas share its instrument and event time and its
 * first delta carries its init time. A snapshot comes back as itself when it
 * has at least one level; with none it encodes to a lone CLEAR row, which the
 * decoder rejects.
 */
module OrderBookRoundTrip {
  import opened Wrappers
  import opened BookData
  import opened StableSort
  import opened OrderBookEncoder
  import opened OrderBookDecoder
  import opened OrderBookDecoderProperties

  /** What decoding the rows of `data` is meant to give back. */
  function Decoded(data: BookData): (r: BookData)
    ensures TsEvent(r) == TsEvent(data)
  {
    match data
    case Delta(d) => Deltas(OrderBookDeltas(d.instrumentId, [d], d.tsEvent, d.tsInit))
    case Deltas(_) => data
    case Snapshot(_) => data
  }

  /** The grouping key of an event: its instrument and event time. */
  function EventKey(data: BookData): RowKey {
    match data
    case Delta(d) => RowKey(d.instrumentId, d.tsEvent)
    case Deltas(b) => RowKey(b.instrumentId, b.tsEvent)
    case Snapshot(s) => RowKey(s.instrumentId, s.tsEvent)
  }

  /** The events whose rows form one group that rebuilds them. */
  predicate RoundTrips(data: BookData) {
    match data
    case Delta(_) => true
    case Deltas(b) =>
      && b.deltas != []
      && (forall i :: 0 <= i < |b.deltas| ==>
            b.deltas[i].instrumentId == b.instrumentId && b.deltas[i].tsEvent == b.tsEvent)
      && b.deltas[0].tsInit == b.tsInit
    case Snapshot(s) => |s.bids| + |s.asks| >= 1
  }

  /** Every encoded row has an accepted side. */
  lemma EncodedSidesValid(data: BookData)
    ensures AllSidesValid(Encode(data))
  {
    var rows, unmarked := Encode(data), UnmarkedRows(data);
    assert forall i :: 0 <= i < |unmarked| ==> ValidSide(unmarked[i].side);
    assert forall i :: 0 <= i < |rows| ==> rows[i].side == unmarked[i].side;
  }

  /** The rows of an event that round-trips all carry the event's key. */
  lemma EncodedKeys(data: BookData)
    requires RoundTrips(data)
    ensures Encode(data) != []
    ensures forall i :: 0 <= i < |Encode(data)| ==> KeyOf(Encode(data)[i]) == EventKey(data)
  {
    match data
    case Delta(d) => EncodeDelta(d);
    case Deltas(b) => EncodeDeltas(b);
    case Snapshot(s) => EncodeSnapshot(s);
  }

  lemma {:induction false} SideLevelsConcat(a: seq<Row>, b: seq<Row>, sideName: string)
    ensures SideLevels(a + b, sideName) == SideLevels(a, sideName) + SideLevels(b, sideName)
  {
    if a == [] {
      assert a + b == b;
    } else {
      var head := if a[0].side == Some(sideName) then [Level(a[0].price, a[0].size)] else [];
      assert (a + b)[0] == a[0] && (a + b)[1..] == a[1..] + b;
      calc {
        SideLevels(a + b, sideName);
        head + SideLevels(a[1..] + b, sideName);
        { SideLevelsConcat(a[1..], b, sideName); }
        head + (SideLevels(a[1..], sideName) + SideLevels(b, sideName));
        (head + SideLevels(a[1..], sideName)) + SideLevels(b, sideName);
      }
    }
  }

  /** Rows that are all ADD rows of one side give back their levels, in order. */
  lemma {:induction false} SideLevelsOfAdds(rows: seq<Row>, sideName: string, levels: seq<Level>)
    requires |rows| == |levels|
    requires forall i :: 0 <= i < |rows| ==> AddRowOf(rows[i], sideName, levels[i])
    ensures SideLevels(rows, sideName) == levels
  {
    if rows != [] {
      SideLevelsOfAdds(rows[1..], sideName, levels[1..]);
      assert levels == [levels[0]] + levels[1..];
    }
  }

  lemma {:induction false} SideLevelsOfOtherSide(rows: seq<Row>, sideName: string)
    requires forall i :: 0 <= i < |rows| ==> rows[i].side != Some(sideName)
    ensures SideLevels(rows, sideName) == []
  {
    if rows != [] {
      SideLevelsOfOtherSide(rows[1..], sideName);
    }
  }

  /** Rows shaped like a snapshot's encoding give back its bids and its asks. */
  lemma LevelsOfSnapshotRows(rows: seq<Row>, bids: seq<Level>, asks: seq<Level>)
    requires |rows| == 1 + |bids| + |asks|
    requires forall i :: 0 <= i < |bids| ==> AddRowOf(rows[1 + i], BuyName, bids[i])
    requires forall i :: 0 <= i < |asks| ==> AddRowOf(rows[1 + |bids| + i], SellName, asks[i])
    ensures SideLevels(rows[1..], BuyName) == bids && SideLevels(rows[1..], SellName) == asks
  {
    var nb := |bids|;
    var bidRows, askRows := rows[1..1 + nb], rows[1 + nb..];
    assert rows[1..] == bidRows + askRows;
    assert forall i :: 0 <= i < nb ==> bidRows[i] == rows[1 + i];
    assert forall i :: 0 <= i < |asks| ==> askRows[i] == rows[1 + nb + i];
    SideLevelsConcat(bidRows, askRows, BuyName);
    SideLevelsConcat(bidRows, askRows, SellName);
    SideLevelsOfAdds(bidRows, BuyName, bids);
    SideLevelsOfAdds(askRows, SellName, asks);
    SideLevelsOfOtherSide(bidRows, SellName);
    SideLevelsOfOtherSide(askRows, BuyName);
  }

  /**
   * `_is_orderbook_snapshot` tells the kinds apart on encoded rows: the rows
   * of an event open a snapshot group exactly when the event is a snapshot.
   */
  lemma EncodedKindRecognised(data: BookData)
    requires Encode(data) != []
    ensures IsSnapshotGroup(Encode(data)) <==> data.Snapshot?
  {
    match data
    case Delta(d) => EncodeDelta(d);
    case Deltas(b) => EncodeDeltas(b);
    case Snapshot(s) => EncodeSnapshot(s);
  }

  /** The level rows of an encoded snapshot give back its bids and its asks. */
  lemma SnapshotLevels(s: OrderBookSnapshot)
    ensures var levelRows := Encode(Snapshot(s))[1..];
      SideLevels(levelRows, BuyName) == s.bids && SideLevels(levelRows, SellName) == s.asks
  {
    EncodeSnapshot(s);
    LevelsOfSnapshotRows(Encode(Snapshot(s)), s.bids, s.asks);
  }

  /** The group of an event's rows rebuilds the event, in its decoded form. */
  lemma GroupRoundTrip(data: BookData)
    requires RoundTrips(data)
    ensures Encode(data) != [] && AllSidesValid(Encode(data))
    ensures BuildGroup(Encode(data)) == Ok(Decoded(data))
  {
    EncodedSidesValid(data);
    EncodedKeys(data);
    var rows := Encode(data);
    match data
    case Delta(d) =>
      EncodeDelta(d);
      assert BuildDeltas(rows).deltas.deltas == [d];
    case Deltas(b) =>
      EncodeDeltas(b);
      assert BuildDeltas(rows).deltas.deltas == b.deltas;
    case Snapshot(s) =>
      EncodeSnapshot(s);
      SnapshotLevels(s);
      assert SingleInstrument(rows);
  }

  /** Decoding the rows of one event gives back that event, and only it. */
  lemma RoundTrip(data: BookData)
    requires RoundTrips(data)
    ensures Decode(Encode(data)) == Ok([Decoded(data)])
  {
    GroupRoundTrip(data);
    EncodedKeys(data);
    DecodeOneGroup(Encode(data));
  }

  /** An empty batch encodes to no rows, which decode to no events. */
  lemma EmptyBatchRoundTrip(b: OrderBookDeltas)
    requires b.deltas == []
    ensures Decode(Encode(Deltas(b))) == Ok([])
  {
    EncodeDeltas(b);
    assert Chunks(SortRows([])) == [];
  }

  /** A snapshot without levels encodes to a lone CLEAR row, which decoding rejects. */
  lemma EmptySnapshotRejected(s: OrderBookSnapshot)
    requires s.bids == [] && s.asks == []
    ensures Decode(Encode(Snapshot(s))) == Err(NotEnoughValues)
  {
    var rows := Encode(Snapshot(s));
    EncodeSnapshot(s);
    EncodedSidesValid(Snapshot(s));
    assert BuildGroup(rows) == Err(NotEnoughValues);
    DecodeOneGroup(rows);
  }

  /**
   * Interleaving: whatever way the rows of two events with different keys are
   * mixed, as long as each event's own rows keep their order, decoding gives
   * back both events, ordered by event time and, at equal times, by key.
   */
  lemma TwoEventsInterleaved(e1: BookData, e2: BookData, rows: seq<Row>)
    requires RoundTrips(e1) && RoundTrips(e2)
    requires KeyLess(EventKey(e1), EventKey(e2))
    requires WithKey(rows, EventKey(e1)) == Encode(e1)
    requires WithKey(rows, EventKey(e2)) == Encode(e2)
    requires forall i :: 0 <= i < |rows| ==> KeyOf(rows[i]) == EventKey(e1) || KeyOf(rows[i]) == EventKey(e2)
    ensures Decode(rows) == Ok(
      if TsEvent(e2) < TsEvent(e1) then [Decoded(e2), Decoded(e1)] else [Decoded(e1), Decoded(e2)])
  {
    var k1, k2 := EventKey(e1), EventKey(e2);
    var r1, r2 := Encode(e1), Encode(e2);
    EncodedKeys(e1);
    EncodedKeys(e2);
    KeyLessIrreflexive(k1);
    // The interleaving decodes like the two encodings one after the other,
    // each of which is one group that rebuilds its event.
    GroupRoundTrip(e1);
    GroupRoundTrip(e2);
    DecodeTwoInterleavedGroups(rows, r1, k1, Decoded(e1), r2, k2, Decoded(e2));
  }

  /**
   * Rows of one key are not interchangeable: swapping the CLEAR row of a
   * snapshot with its first bid row makes the decoder drop that bid, because
   * it discards whatever row comes first in the group.
   */
  lemma ReorderedSnapshotLosesBid(s: OrderBookSnapshot)
    requires s.bids != []
    ensures |Encode(Snapshot(s))| == 1 + |s.bids| + |s.asks|
    ensures var rows := Encode(Snapshot(s));
      var swapped := [rows[1], rows[0]] + rows[2..];
      && multiset(swapped) == multiset(rows)
      && Decode(rows) == Ok([Snapshot(s)])
      && Decode(swapped) == Ok([Snapshot(s.(bids := s.bids[1..]))])
  {
    var rows := Encode(Snapshot(s));
    EncodeSnapshot(s);
    EncodedSidesValid(Snapshot(s));
    RoundTrip(Snapshot(s));
    SwapHeadPermutes(rows);
    SwappedGroup(s, rows);
  }

  lemma SwapHeadPermutes(rows: seq<Row>)
    requires |rows| >= 2
    ensures multiset([rows[1], rows[0]] + rows[2..]) == multiset(rows)
  {
    assert rows == [rows[0], rows[1]] + rows[2..];
  }

  /** The levels the decoder reads from the swapped rows: all bids but the first, and all asks. */
  lemma SwappedLevels(s: OrderBookSnapshot, rows: seq<Row>)
    requires s.bids != [] && |rows| == 1 + |s.bids| + |s.asks|
    requires rows[0].side == None
    requires forall i :: 0 <= i < |s.bids| ==> AddRowOf(rows[1 + i], BuyName, s.bids[i])
    requires forall i :: 0 <= i < |s.asks| ==> AddRowOf(rows[1 + |s.bids| + i], SellName, s.asks[i])
    ensures var levelRows := ([rows[1], rows[0]] + rows[2..])[1..];
      SideLevels(levelRows, BuyName) == s.bids[1..] && SideLevels(levelRows, SellName) == s.asks
  {
    var rest := rows[1..];
    DropFirstBid(s, rows);
    LevelsOfSnapshotRows(rest, s.bids[1..], s.asks);
    assert ([rows[1], rows[0]] + rows[2..])[1..] == [rows[0]] + rest[1..];
    SideLevelsConcat([rows[0]], rest[1..], BuyName);
    SideLevelsConcat([rows[0]], rest[1..], SellName);
    assert [rows[0]][1..] == [];
  }

  /** Without their CLEAR row, a snapshot's rows are shaped like the rows of the snapshot without its first bid. */
  lemma DropFirstBid(s: OrderBookSnapshot, rows: seq<Row>)
    requires s.bids != [] && |rows| == 1 + |s.bids| + |s.asks|
    requires forall i :: 0 <= i < |s.bids| ==> AddRowOf(rows[1 + i], BuyName, s.bids[i])
    requires forall i :: 0 <= i < |s.asks| ==> AddRowOf(rows[1 + |s.bids| + i], SellName, s.asks[i])
    ensures var rest, bids := rows[1..], s.bids[1..];
      && (forall i :: 0 <= i < |bids| ==> AddRowOf(rest[1 + i], BuyName, bids[i]))
      && (forall i :: 0 <= i < |s.asks| ==> AddRowOf(rest[1 + |bids| + i], SellName, s.asks[i]))
  {
    var rest, bids := rows[1..], s.bids[1..];
    forall i | 0 <= i < |bids| ensures AddRowOf(rest[1 + i], BuyName, bids[i]) {
      assert rest[1 + i] == rows[1 + (1 + i)] && bids[i] == s.bids[1 + i];
    }
    forall i | 0 <= i < |s.asks| ensures AddRowOf(rest[1 + |bids| + i], SellName, s.asks[i]) {
      assert rest[1 + |bids| + i] == rows[1 + |s.bids| + i];
    }
  }

  /** The decoding of the swapped rows, from the shape of a snapshot's encoding alone. */
  lemma SwappedGroup(s: OrderBookSnapshot, rows: seq<Row>)
    requires s.bids != [] && |rows| == 1 + |s.bids| + |s.asks| && AllSidesValid(rows)
    requires rows[0].side == None
    requires forall i :: 0 <= i < |s.bids| ==> AddRowOf(rows[1 + i], BuyName, s.bids[i])
    requires forall i :: 0 <= i < |s.asks| ==> AddRowOf(rows[1 + |s.bids| + i], SellName, s.asks[i])
    requires forall i :: 0 <= i < |rows| ==> SnapshotRow(s, rows[i])
    ensures Decode([rows[1], rows[0]] + rows[2..]) == Ok([Snapshot(s.(bids := s.bids[1..]))])
  {
    var swapped := [rows[1], rows[0]] + rows[2..];
    SwappedLevels(s, rows);
    forall i | 0 <= i < |swapped|
      ensures SnapshotRow(s, swapped[i]) && ValidSide(swapped[i].side)
    {
      assert swapped[i] == rows[if i == 0 then 1 else if i == 1 then 0 else i];
    }
    assert SingleInstrument(swapped);
    assert BuildGroup(swapped) == Ok(Snapshot(s.(bids := s.bids[1..])));
    DecodeOneGroup(swapped);
  }
}
