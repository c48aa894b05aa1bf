/** Fetching a range with the ABI's own decoder (crates/forge-index-sync/src/backfill/worker.rs:63-108): which logs
    fail it, which it skips, and what it returns. */
module LogFetch {
  import opened Tables
  import opened Sorting
  import opened AbiTypes
  import opened AbiEncoding
  import opened ParamMaps
  import AbiEvents
  import opened Delivery

  /** A log with its position on the chain. */
  datatype ChainLog = ChainLog(log: AbiEvents.Log, block: nat, logIndex: nat)

  /** What a handler sees of a decoded event, as text. */
  type Render = AbiEvents.DecodedEvent -> string

  function EventAt(l: ChainLog, d: AbiEvents.DecodedEvent, render: Render): Event {
    Event(d.contract, l.block, l.logIndex, render(d))
  }

  /** Logs with an unknown selector are skipped, any other failure is one. */
  function Reading(decoder: map<AbiEvents.Topic, AbiEvents.AbiEvent>, contract: string, render: Render)
    : ChainLog -> Decoding
  {
    (l: ChainLog) =>
      var r := AbiEvents.Decoded(decoder, l.log, contract);
      if r.Ok? then Decoding.Decoded(EventAt(l, r.value, render))
      else if r.error == InvalidSelector then UnknownSelector
      else Malformed
  }

  method FetchLogs(abi: seq<AbiEvents.AbiEvent>, logs: seq<ChainLog>, contract: string, render: Render)
    returns (r: Option<seq<Event>>)
    ensures var reading := Reading(AbiEvents.BySelector(abi), contract, render);
      && (r.None? <==> exists l <- logs :: reading(l).Malformed?)
      && (r.Some? ==> r.value == Sort(Decodable(logs, reading), ByPosition()))
  {
    var decoder := AbiEvents.NewDecoder(abi);
    r := FetchRange(logs, Reading(decoder, contract, render));
  }

  // Logs whose content is known

  datatype Content = Foreign | Carried(event: AbiEvents.AbiEvent, values: seq<DecodedParam>)

  /** The log is none of the ABI's, or it carries values of one of the ABI's events that the decoder can read. */
  predicate Holds(abi: seq<AbiEvents.AbiEvent>, l: ChainLog, c: Content) {
    match c
    case Foreign => l.log.topics == [] || forall e <- abi :: e.selector != l.log.topics[0]
    case Carried(event, ds) =>
      && (exists i :: 0 <= i < |abi| && abi[i] == event &&
            forall j :: i < j < |abi| ==> abi[j].selector != event.selector)
      && |event.inputs| == |ds| && AbiEvents.AllInputsFit(event.inputs, ds)
      && !AbiEvents.AnyInputBreaks(event.inputs, ds)
      && AbiEvents.Carries(l.log, event, ds) && |l.log.data| < Usize
  }

  /** The event that a log of known content should give, if any. */
  function Events(l: ChainLog, c: Content, contract: string, render: Render): seq<Event>
    requires c.Carried? ==> |c.event.inputs| == |c.values|
  {
    match c
    case Foreign => []
    case Carried(event, ds) =>
      var params := PutAll([], AbiEvents.Named(event.inputs, ds));
      [EventAt(l, AbiEvents.DecodedEvent(event.name, contract, params, l.log), render)]
  }

  lemma KnownContent(abi: seq<AbiEvents.AbiEvent>, l: ChainLog, c: Content, contract: string, render: Render)
    requires Holds(abi, l, c)
    ensures var d := Reading(AbiEvents.BySelector(abi), contract, render)(l);
      !d.Malformed? && Events(l, c, contract, render) == if d.Decoded? then [d.event] else []
  {
    AbiEvents.InvalidSelectorIff(abi, l.log, contract);
    if c.Carried? {
      var i :| 0 <= i < |abi| && abi[i] == c.event && forall j :: i < j < |abi| ==> abi[j].selector != c.event.selector;
      AbiEvents.LastEventFound(abi, i);
      AbiEvents.EventDecodes(AbiEvents.BySelector(abi), c.event, c.values, l.log, contract);
    }
  }

  ghost predicate AllHold(abi: seq<AbiEvents.AbiEvent>, logs: seq<ChainLog>, cs: seq<Content>) {
    |logs| == |cs| && forall i :: 0 <= i < |logs| ==> Holds(abi, logs[i], cs[i])
  }

  ghost function AllEvents(abi: seq<AbiEvents.AbiEvent>, logs: seq<ChainLog>, cs: seq<Content>, contract: string,
                           render: Render): seq<Event>
    requires AllHold(abi, logs, cs)
  {
    if logs == [] then []
    else Events(logs[0], cs[0], contract, render) + AllEvents(abi, logs[1..], cs[1..], contract, render)
  }

  lemma {:induction false} KnownContents(abi: seq<AbiEvents.AbiEvent>, logs: seq<ChainLog>, cs: seq<Content>,
                                         contract: string, render: Render)
    requires AllHold(abi, logs, cs)
    ensures var reading := Reading(AbiEvents.BySelector(abi), contract, render);
      && (forall l <- logs :: !reading(l).Malformed?)
      && Decodable(logs, reading) == AllEvents(abi, logs, cs, contract, render)
  {
    if logs != [] {
      KnownContent(abi, logs[0], cs[0], contract, render);
      KnownContents(abi, logs[1..], cs[1..], contract, render);
    }
  }

  /** A range of logs that carry encodings of the ABI's events, mixed with any logs of other selectors, is fetched, and
      gives exactly the events carried, by block and log index. */
  lemma FetchesCarried(abi: seq<AbiEvents.AbiEvent>, logs: seq<ChainLog>, cs: seq<Content>, contract: string,
                       render: Render)
    requires AllHold(abi, logs, cs)
    ensures var reading := Reading(AbiEvents.BySelector(abi), contract, render);
      var fetched := Sort(Decodable(logs, reading), ByPosition());
      && (forall l <- logs :: !reading(l).Malformed?)
      && multiset(fetched) == multiset(AllEvents(abi, logs, cs, contract, render)) && InPosition(fetched)
  {
    KnownContents(abi, logs, cs, contract, render);
    SortedInPosition(AllEvents(abi, logs, cs, contract, render));
  }
}
