/**
 * Listing events pushed by the marketplace stream, and the pre-processing step
 * of `processBptfEventsFromWebsocket`: keep the two relevant kinds, stamp each
 * with the hour in which it was ingested, and read the four numeric figures
 * with JavaScript's truthiness rules.
 */
module Events {
  import opened Wrappers
  import opened Clock
  import opened Schema
  import Seqs

  const LISTING_UPDATE: string := "listing-update"
  const LISTING_DELETE: string := "listing-delete"

  datatype Quality = Quality(name: string, color: string)

  datatype UserAgent = UserAgent(client: string, lastPulse: int)

  /**
   * One event envelope with the payload fields the collector reads. Numeric
   * fields are `None` when the JSON property is missing (`undefined`).
   * `communityUsd` is `item.price.community?.usd`, `valueRaw` is
   * `payload.value?.raw`; `listedAt`, `bumpedAt` and `lastPulse` are in seconds.
   */
  datatype Event = Event(
    id: string,
    kind: string,
    listingId: string,
    itemName: string,
    quality: Option<Quality>,
    imageUrl: string,
    communityUsd: Option<real>,
    valueRaw: Option<real>,
    metal: Option<real>,
    keys: Option<real>,
    userAgent: Option<UserAgent>,
    listedAt: int,
    bumpedAt: int)

  predicate IsRelevant(e: Event) {
    e.kind == LISTING_UPDATE || e.kind == LISTING_DELETE
  }

  /** The events of a batch that are `listing-update` or `listing-delete`, in order. */
  function Relevant(events: seq<Event>): (r: seq<Event>)
    ensures |r| <= |events|
    ensures forall i :: 0 <= i < |r| ==> IsRelevant(r[i]) && r[i] in events
    ensures forall i :: 0 <= i < |events| && IsRelevant(events[i]) ==> events[i] in r
  {
    Seqs.Filter(events, IsRelevant)
  }

  /** A batch without update or delete events leaves nothing to process. */
  lemma {:induction false} NothingRelevant(events: seq<Event>)
    requires forall i :: 0 <= i < |events| ==> !IsRelevant(events[i])
    ensures Relevant(events) == []
  {
  }

  datatype Kind = Update | Delete

  /** An event as the aggregation reads it (the element type of `batchItems`). */
  datatype BatchItem = BatchItem(
    itemName: string,
    kind: Kind,
    hour: int,
    qualityName: Option<string>,
    imageUrl: string,
    color: Option<string>,
    priceValue: Option<real>,
    priceUsd: Option<real>,
    keysAmount: Option<real>,
    metalAmount: Option<real>)
  {
    function Get(f: Field): Option<real> {
      match f
      case PriceValue => priceValue
      case PriceUsd => priceUsd
      case KeysAmount => keysAmount
      case MetalAmount => metalAmount
    }
  }

  /**
   * `x ? parseFloat(x) : null` and `parseFloat(x) || null`: a missing figure
   * and a figure equal to zero both become null.
   */
  function Truthy(x: Option<real>): (r: Option<real>)
    ensures r.Some? <==> x.Some? && x.value != 0.0
    ensures r.Some? ==> r == x
  {
    if x.Some? && x.value != 0.0 then x else None
  }

  /** `s || null` on a string that may be missing: the empty string becomes null too. */
  function NonEmpty(s: Option<string>): (r: Option<string>)
    ensures r.Some? <==> s.Some? && s.value != ""
    ensures r.Some? ==> r == s
  {
    if s.Some? && s.value != "" then s else None
  }

  /** The raw figure an event carries for `f`, before the truthiness test. */
  function RawFigure(e: Event, f: Field): Option<real> {
    match f
    case PriceValue => e.valueRaw
    case PriceUsd => e.communityUsd
    case KeysAmount => e.keys
    case MetalAmount => e.metal
  }

  /** The batch item for a relevant event read when the clock showed `now` (milliseconds). */
  function ToBatchItem(e: Event, now: int): BatchItem
    requires IsRelevant(e)
  {
    BatchItem(
      e.itemName,
      if e.kind == LISTING_UPDATE then Update else Delete,
      TruncateToHour(now),
      NonEmpty(if e.quality.Some? then Some(e.quality.value.name) else None),
      e.imageUrl,
      NonEmpty(if e.quality.Some? then Some(e.quality.value.color) else None),
      Truthy(e.valueRaw),
      Truthy(e.communityUsd),
      Truthy(e.keys),
      Truthy(e.metal))
  }

  /**
   * The batch items of a batch. The source reads the clock once per relevant
   * event, so `clock[i]` is the reading taken for the i-th relevant event.
   */
  function Batch(events: seq<Event>, clock: seq<int>): (r: seq<BatchItem>)
    requires |clock| == |Relevant(events)|
    ensures |r| == |Relevant(events)|
    ensures forall i :: 0 <= i < |r| ==>
      && r[i].itemName == Relevant(events)[i].itemName
      && (r[i].kind == Update <==> Relevant(events)[i].kind == LISTING_UPDATE)
      && r[i].hour == TruncateToHour(clock[i])
      && forall f :: r[i].Get(f) == Truthy(RawFigure(Relevant(events)[i], f))
  {
    var rel := Relevant(events);
    seq(|rel|, i requires 0 <= i < |rel| => ToBatchItem(rel[i], clock[i]))
  }

  /** The loop that fills `batchItems`, one item per relevant event. */
  method PrepareBatch(events: seq<Event>, clock: seq<int>) returns (batchItems: seq<BatchItem>)
    requires |clock| == |Relevant(events)|
    ensures batchItems == Batch(events, clock)
  {
    var relevantEvents := Relevant(events);
    batchItems := [];
    var i := 0;
    while i < |relevantEvents|
      invariant 0 <= i <= |relevantEvents|
      invariant batchItems == Batch(events, clock)[..i]
    {
      batchItems := batchItems + [ToBatchItem(relevantEvents[i], clock[i])];
      i := i + 1;
    }
  }
}
