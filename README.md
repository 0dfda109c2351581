# Order-book codec model

This project models the NautilusTrader codec that turns order-book events into flat rows for columnar (Arrow/Parquet) storage, and turns the rows back into events. It covers three kinds of event:

- a single `OrderBookDelta`;
- a batch `OrderBookDeltas`;
- a full `OrderBookSnapshot`.

Modules, one per file:

- `BookData` (`book_data.dfy`): the events and the stored `Row`. `to_dict` and `from_dict` are field-for-field copies. The side column is kept as a raw optional string, so that rows with a malformed side can be represented.
- `OrderBookEncoder` (`encoder.dfy`): `_parse_delta` and `serialize`.
  - `Serialize` is a method that builds the row list with loops and marks the final row in place.
  - It is proved equal to the specification function `Encode`.
  - Lemmas give the shape of the rows for each kind of event.
- `OrderBookDecoder` (`decoder.dfy`): the grouping key `_sort_func`, `itertools.groupby` (`Chunks`), `_is_orderbook_snapshot`, `_build_order_book_snapshot`, `_build_order_book_deltas` and `deserialize`.
  - `Deserialize` is a method with the source's loop over the groups. It is proved equal to the specification function `Decode`.
  - Each Python `assert` becomes an error value of `DecodeError`: `WrongSides`, `MixedInstruments` or `NotEnoughValues`.
- `OrderBookDecoderProperties` (`decoder.dfy`): what decoding guarantees.
  - When decoding fails, and when it succeeds.
  - That each group is exactly the input's rows of one key, in input order.
  - That the output is ordered by event time, with ties in group order.
  - That rows of different keys may be interleaved freely.
- `OrderBookRoundTrip` (`round_trip.dfy`): encoding followed by decoding.
- `StableSort` (`stable_sort.dfy`): Python's `sorted`, modelled as a stable insertion sort over a strict weak order. `SortedUnique` proves that every stable sort produces the same output, so the choice of algorithm does not affect the results.
- `LexOrder` (`lex_order.dfy`): Python's `<` on `str`.
- `Wrappers` (`wrappers.dfy`): `Option` and `Result`.

Behaviour of the code that the proofs make explicit:

- A single delta decodes back as a batch holding that one delta, never as a delta. Only a group's first `_type` is looked at.
- Rows of one key are not interchangeable. The snapshot builder drops whatever row comes first in its group. Swapping a snapshot's CLEAR row with its first bid row therefore loses that bid (`ReorderedSnapshotLosesBid`). A description of the codec as decoding "a snapshot's rows in any order" is true only for reorderings that keep each key's rows in place. `DecodeRespectsKeyGroups` and `TwoEventsInterleaved` prove that form.
- A snapshot without levels encodes to a lone CLEAR row, and decoding rejects it (`EmptySnapshotRejected`).
- A batch whose deltas have different instruments or event times is split across groups by the decoder. `RoundTrips` states the batches that come back whole.

## Model

| member | source | states |
|---|---|---|
| OrderBookEncoder.ParseDelta | nautilus_trader/serialization/arrow/implementations/order_book.py:30-31 | The row carries the given type name, is not marked last, has an accepted side, and `from_dict` of it gives back the delta. |
| OrderBookEncoder.Orders | nautilus_trader/serialization/arrow/implementations/order_book.py:53-55 | The (side, level) list pairs BUY with each bid, in bid order, followed by SELL with each ask, in ask order, and has nothing else. |
| OrderBookEncoder.Serialize | nautilus_trader/serialization/arrow/implementations/order_book.py:34-76 | The loop-built, last-marked row list equals `Encode(data)`. |
| OrderBookEncoder.EncodeDelta | nautilus_trader/serialization/arrow/implementations/order_book.py:35-36 | A delta gives exactly one row. The row is tagged `OrderBookDelta`, marked last and decodes to the delta. |
| OrderBookEncoder.EncodeDeltas | nautilus_trader/serialization/arrow/implementations/order_book.py:37-38 | A batch gives one row per member delta, in order. Each row is tagged `OrderBookDeltas` and decodes to its delta. An empty batch gives no rows. |
| OrderBookEncoder.EncodeSnapshot | nautilus_trader/serialization/arrow/implementations/order_book.py:39-70 | A snapshot gives one row more than it has levels. Row 0 is CLEAR without a side. Then come ADD/BUY rows in bid order, then ADD/SELL rows in ask order. Every row carries the snapshot's tag, instrument and timestamps. |
| OrderBookEncoder.EncodeMarksOnlyLast | nautilus_trader/serialization/arrow/implementations/order_book.py:73-76 | In any encoding, a row is marked `_last` exactly when it is the final row. |
| LexOrder.LexIrreflexive | nautilus_trader/serialization/arrow/implementations/order_book.py:105-106 | No instrument id sorts before itself. |
| LexOrder.LexTransitive | nautilus_trader/serialization/arrow/implementations/order_book.py:105-106 | Python string order on instrument ids is transitive. |
| LexOrder.LexTotal | nautilus_trader/serialization/arrow/implementations/order_book.py:105-106 | Of two different instrument ids, one sorts before the other. |
| OrderBookDecoder.KeyLessIrreflexive | nautilus_trader/serialization/arrow/implementations/order_book.py:105-106 | No `(instrument_id, ts_event)` key sorts before itself. |
| OrderBookDecoder.KeyLessTransitive | nautilus_trader/serialization/arrow/implementations/order_book.py:105-106 | Comparing `(instrument_id, ts_event)` keys as Python tuples, first by id then by event time, is transitive. |
| OrderBookDecoder.KeyLessTotal | nautilus_trader/serialization/arrow/implementations/order_book.py:105-106 | Two `(instrument_id, ts_event)` keys are equal, or one precedes the other. |
| OrderBookDecoder.EquivalentIsSameKey | nautilus_trader/serialization/arrow/implementations/order_book.py:105-106 | The sort leaves two rows unordered exactly when their keys are equal. |
| OrderBookDecoder.RowOrder | nautilus_trader/serialization/arrow/implementations/order_book.py:105-106 | Comparing rows by `_sort_func` is a strict weak order. |
| OrderBookDecoder.SortRowsStable | nautilus_trader/serialization/arrow/implementations/order_book.py:112 | For every key, sorting keeps the input order of that key's rows. |
| OrderBookDecoder.RunLength | nautilus_trader/serialization/arrow/implementations/order_book.py:112 | The leading run is non-empty, shares the first row's key, and stops at the first row with another key. |
| OrderBookDecoder.Chunks | nautilus_trader/serialization/arrow/implementations/order_book.py:112 | `groupby` gives non-empty groups. Each group shares one key, neighbouring groups differ in key, and the groups joined are the input. |
| OrderBookDecoder.SideLevelsSplit | nautilus_trader/serialization/arrow/implementations/order_book.py:89-90 | When every row names BUY or SELL, each row becomes exactly one level, a bid or an ask. |
| OrderBookDecoder.OneInstrumentId | nautilus_trader/serialization/arrow/implementations/order_book.py:85 | The set of instrument ids has size 1 exactly when the group is non-empty and names a single instrument. |
| OrderBookDecoder.BuildSnapshot | nautilus_trader/serialization/arrow/implementations/order_book.py:83-93 | Fails with MixedInstruments exactly when the group is not single-instrument. Fails with NotEnoughValues exactly when it is single-instrument with fewer than 2 rows. Succeeds exactly when the group is single-instrument with at least 2 rows, and then gives a snapshot with bids from the BUY rows after the first and asks from the SELL rows after the first, in order, and timestamps from row 1. |
| OrderBookDecoder.BuildDeltas | nautilus_trader/serialization/arrow/implementations/order_book.py:96-102 | Gives one batch with `from_dict` of every row, in order, and the instrument id, event time and init time of the first row. |
| OrderBookDecoder.BuildGroup | nautilus_trader/serialization/arrow/implementations/order_book.py:114-117 | A group whose first row's `_type` is `OrderBookSnapshot` gives what the snapshot builder gives. Any other group always succeeds, with the batch of `from_dict` of all its rows, in order. |
| OrderBookDecoder.BuildAll | nautilus_trader/serialization/arrow/implementations/order_book.py:111-117 | On success the loop gives one event per group, in group order, and event i is what group i rebuilds. On failure the error is not WrongSides. |
| OrderBookDecoder.GroupsOfSortedDecodable | nautilus_trader/serialization/arrow/implementations/order_book.py:110-112 | After the side check, every group handed to the builders is non-empty and has accepted sides. |
| OrderBookDecoder.Deserialize | nautilus_trader/serialization/arrow/implementations/order_book.py:109-118 | The method's loop and early return give exactly `Decode(data)`. |
| OrderBookDecoder.BuildAllStep | nautilus_trader/serialization/arrow/implementations/order_book.py:114-117 | A group that rebuilds appends its event to the loop's results. |
| OrderBookDecoder.BuildAllStops | nautilus_trader/serialization/arrow/implementations/order_book.py:114-115 | The first failing group's error is the error of the whole loop. |
| OrderBookDecoderProperties.DecodeGroups | nautilus_trader/serialization/arrow/implementations/order_book.py:112 | Each group equals the input's rows of its key, in input order, and names a single instrument. |
| OrderBookDecoderProperties.BuildAllOkIff | nautilus_trader/serialization/arrow/implementations/order_book.py:111-117 | The loop succeeds exactly when every group rebuilds. |
| OrderBookDecoderProperties.BuildAllErrors | nautilus_trader/serialization/arrow/implementations/order_book.py:85-86 | Over single-instrument groups, the loop can fail only with NotEnoughValues. |
| OrderBookDecoderProperties.DecodeRejectsWrongSides | nautilus_trader/serialization/arrow/implementations/order_book.py:110 | Decoding fails with WrongSides exactly when some row's side is not absent, "BUY" or "SELL". |
| OrderBookDecoderProperties.DecodeSucceedsIff | nautilus_trader/serialization/arrow/implementations/order_book.py:83-118 | Decoding succeeds exactly when all sides are accepted and no key's rows form a lone snapshot row. It never fails with MixedInstruments. |
| OrderBookDecoderProperties.DecodeSorted | nautilus_trader/serialization/arrow/implementations/order_book.py:118 | Decoded events are in non-decreasing event time. |
| OrderBookDecoderProperties.DecodeKeepsTieOrder | nautilus_trader/serialization/arrow/implementations/order_book.py:118 | Events with equal event times keep the order of their groups. |
| OrderBookDecoderProperties.DecodeRespectsKeyGroups | nautilus_trader/serialization/arrow/implementations/order_book.py:109-118 | Two inputs with the same rows, in the same order, for every key decode identically. |
| OrderBookDecoderProperties.DecodeOneGroup | nautilus_trader/serialization/arrow/implementations/order_book.py:109-118 | Rows of a single key decode to exactly what their one group rebuilds, event or error. |
| OrderBookDecoderProperties.DecodeTwoInterleavedGroups | nautilus_trader/serialization/arrow/implementations/order_book.py:109-118 | Any interleaving of two keys' rows decodes to the two rebuilt events, ordered by event time and, at equal times, by key. |
| OrderBookRoundTrip.EncodedSidesValid | nautilus_trader/serialization/arrow/implementations/order_book.py:30-76 | Every encoded row passes the decoder's side check. |
| OrderBookRoundTrip.EncodedKeys | nautilus_trader/serialization/arrow/implementations/order_book.py:34-70 | All rows of a well-formed event share the event's key, and there is at least one row. |
| OrderBookRoundTrip.EncodedKindRecognised | nautilus_trader/serialization/arrow/implementations/order_book.py:79-80 | An event's rows open a group classified as a snapshot exactly when the event is a snapshot. |
| OrderBookRoundTrip.SnapshotLevels | nautilus_trader/serialization/arrow/implementations/order_book.py:53-70 | The level rows of an encoded snapshot give back its bids and asks by side, in order. |
| OrderBookRoundTrip.GroupRoundTrip | nautilus_trader/serialization/arrow/implementations/order_book.py:30-102 | An event's rows, as one group, rebuild the event. A delta comes back as a one-delta batch. |
| OrderBookRoundTrip.RoundTrip | nautilus_trader/serialization/arrow/implementations/order_book.py:34-118 | Decoding the rows of a round-tripping event gives exactly that event, in decoded form. |
| OrderBookRoundTrip.EmptyBatchRoundTrip | nautilus_trader/serialization/arrow/implementations/order_book.py:37-38 | An empty batch encodes to no rows, which decode to no events. |
| OrderBookRoundTrip.EmptySnapshotRejected | nautilus_trader/serialization/arrow/implementations/order_book.py:39-52 | A snapshot with no levels round-trips to the NotEnoughValues error. |
| OrderBookRoundTrip.TwoEventsInterleaved | nautilus_trader/serialization/arrow/implementations/order_book.py:109-118 | Two events with different keys, their rows interleaved in any way that keeps each event's own order, decode to both events, ordered by event time. |
| OrderBookRoundTrip.ReorderedSnapshotLosesBid | nautilus_trader/serialization/arrow/implementations/order_book.py:84-90 | Swapping a snapshot's first two rows is a permutation. The original rows decode to the snapshot, the swapped rows to the snapshot without its first bid. |
| StableSort.InsertPermutes | nautilus_trader/serialization/arrow/implementations/order_book.py:112 | Inserting adds the element and loses nothing (multiset). |
| StableSort.Sort | nautilus_trader/serialization/arrow/implementations/order_book.py:112 | Sorting is a permutation of its input. |
| StableSort.SortSorted | nautilus_trader/serialization/arrow/implementations/order_book.py:112 | The sorted output is ordered. |
| StableSort.SortStable | nautilus_trader/serialization/arrow/implementations/order_book.py:118 | For every key, sorting keeps the input order of that key's elements. |
| StableSort.SortedUnique | nautilus_trader/serialization/arrow/implementations/order_book.py:112 | Two sorted sequences that agree key by key are equal, so every stable sort gives `Sort`'s output. |
| StableSort.SortOfSorted | nautilus_trader/serialization/arrow/implementations/order_book.py:112 | Sorting an already sorted sequence leaves it unchanged. |

## Left out

- Registration of the codec with `register_parquet`, a load-time call into a storage registry: not part of this model.
- `OrderBookDelta.to_dict`/`from_dict`, `InstrumentId.from_str`, `Price` and `Quantity` are foreign objects. They are modelled as plain fields: prices and sizes are integers, and an instrument id is its string form. A row of a delta without an order stores price and size as 0.
- Fields of a delta other than instrument, action, order and the two timestamps, such as flags and sequence number, are not modelled: their handling lives inside `to_dict`/`from_dict`, which are not part of this model.
- The `TypeError` branch of `serialize` for data of another type: the `BookData` datatype admits only the three kinds.
- Python's Timsort is modelled by an insertion sort. `SortedUnique` shows any stable sort gives the same result, but running time is not modelled.
- `groupby` and `sorted` consume iterators; the model uses sequences.
- Arrow tables, Parquet files and any other I/O are not modelled.
- OrderBookDecoder.Deserialize: the source's `elif len(chunk) >= 1` guard is kept, though `groupby` never yields an empty group, so its else-branch never runs.
