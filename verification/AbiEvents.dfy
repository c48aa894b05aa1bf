/** Decoding whole logs: indexed parameters from topics, the others from data. */
module AbiEvents {
  import opened Tables
  import opened Utf8
  import opened AbiTypes
  import opened AbiEncoding
  import opened AbiDecoder
  import opened AbiRoundTrip
  import opened ParamMaps

  type Topic = s: seq<byte> | |s| == 32 witness seq(32, i => 0)

  datatype AbiEvent = AbiEvent(name: string, selector: Topic, inputs: seq<AbiParam>)

  datatype Log = Log(topics: seq<Topic>, data: seq<byte>)

  datatype DecodedEvent = DecodedEvent(name: string, contract: string, params: Params, raw: Log)

  /** The parameters from the given position of topics and data on. */
  function InputsFrom(inputs: seq<AbiParam>, log: Log, topic: nat, offset: nat, params: Params)
    : Result<Params, AbiError>
    decreases |inputs|
  {
    if inputs == [] then Ok(params)
    else
      var p := inputs[0];
      if p.indexed then
        if topic >= |log.topics| then Err(DecodeMismatch)
        else
          match IndexedValue(p.abiType, log.topics[topic])
          case Ok(d) => InputsFrom(inputs[1..], log, topic + 1, offset, Put(params, p.name, d))
          case Err(e) => Err(e)
      else
        match ParamAt(p.abiType, log.data, offset)
        case Ok((d, consumed)) => InputsFrom(inputs[1..], log, topic, offset + consumed, Put(params, p.name, d))
        case Err(e) => Err(e)
  }

  function Decoded(events: map<Topic, AbiEvent>, log: Log, contract: string): Result<DecodedEvent, AbiError> {
    if log.topics == [] || log.topics[0] !in events then Err(InvalidSelector)
    else
      var event := events[log.topics[0]];
      match InputsFrom(event.inputs, log, 1, 0, [])
      case Ok(params) => Ok(DecodedEvent(event.name, contract, params, log))
      case Err(e) => Err(e)
  }

  // Logs that carry given values

  function DataTypes(inputs: seq<AbiParam>): seq<AbiType> {
    if inputs == [] then []
    else (if inputs[0].indexed then [] else [inputs[0].abiType]) + DataTypes(inputs[1..])
  }

  function DataValues(inputs: seq<AbiParam>, ds: seq<DecodedParam>): (r: seq<DecodedParam>)
    requires |inputs| == |ds|
    ensures |r| == |DataTypes(inputs)|
  {
    if inputs == [] then []
    else (if inputs[0].indexed then [] else [ds[0]]) + DataValues(inputs[1..], ds[1..])
  }

  /** An indexed value is its own topic if it fits a word; otherwise the value is the hash in the topic. */
  predicate InputFits(p: AbiParam, d: DecodedParam) {
    if !p.indexed then TopType(p.abiType) && Fits(p.abiType, d)
    else if OneWord(p.abiType) then Fits(p.abiType, d)
    else d.FixedBlob? && |d.bytes| == 32
  }

  function TopicOf(p: AbiParam, d: DecodedParam): Topic
    requires p.indexed && InputFits(p, d)
  {
    if OneWord(p.abiType) then OneWordLength(p.abiType, d); Encode(p.abiType, d) else d.bytes
  }

  predicate AllInputsFit(inputs: seq<AbiParam>, ds: seq<DecodedParam>)
    requires |inputs| == |ds|
  {
    inputs == [] || (InputFits(inputs[0], ds[0]) && AllInputsFit(inputs[1..], ds[1..]))
  }

  function TopicsOf(inputs: seq<AbiParam>, ds: seq<DecodedParam>): seq<Topic>
    requires |inputs| == |ds| && AllInputsFit(inputs, ds)
  {
    if inputs == [] then []
    else (if inputs[0].indexed then [TopicOf(inputs[0], ds[0])] else []) + TopicsOf(inputs[1..], ds[1..])
  }

  predicate Distinct(inputs: seq<AbiParam>) {
    forall i, j :: 0 <= i < j < |inputs| ==> inputs[i].name != inputs[j].name
  }

  function Named(inputs: seq<AbiParam>, ds: seq<DecodedParam>): Params
    requires |inputs| == |ds|
  {
    seq(|ds|, i requires 0 <= i < |ds| => (inputs[i].name, ds[i]))
  }

  /** The log's topics and data start with the encoding of the values; what follows is ignored. */
  predicate Carries(log: Log, event: AbiEvent, ds: seq<DecodedParam>)
    requires |event.inputs| == |ds| && AllInputsFit(event.inputs, ds)
  {
    && [event.selector] + TopicsOf(event.inputs, ds) <= log.topics
    && EncodeAll(DataTypes(event.inputs), DataValues(event.inputs, ds)) <= log.data
  }

  predicate InputBreaks(p: AbiParam, d: DecodedParam) {
    (p.indexed ==> OneWord(p.abiType)) && Breaks(p.abiType, d)
  }

  predicate AnyInputBreaks(inputs: seq<AbiParam>, ds: seq<DecodedParam>)
    requires |inputs| == |ds|
  {
    inputs != [] && (InputBreaks(inputs[0], ds[0]) || AnyInputBreaks(inputs[1..], ds[1..]))
  }

  // Round trip

  lemma IndexedRoundTrip(p: AbiParam, d: DecodedParam)
    requires p.indexed && InputFits(p, d)
    ensures IndexedValue(p.abiType, TopicOf(p, d)) == Expected(InputBreaks(p, d), d)
  {
    if OneWord(p.abiType) {
      WordRoundTrip(p.abiType, d);
    }
  }

  /** The rest of the log from a parameter on. */
  predicate Rest(inputs: seq<AbiParam>, ds: seq<DecodedParam>, log: Log, topic: nat, offset: nat, tail: nat) {
    && |inputs| == |ds|
    && AllInputsFit(inputs, ds)
    && topic <= |log.topics|
    && TopicsOf(inputs, ds) <= log.topics[topic..]
    && Laid(DataTypes(inputs), DataValues(inputs, ds), log.data, 0, offset, tail)
  }

  lemma IndexedFirst(inputs: seq<AbiParam>, ds: seq<DecodedParam>, log: Log, topic: nat, offset: nat, tail: nat)
    requires Rest(inputs, ds, log, topic, offset, tail) && inputs != [] && inputs[0].indexed
    ensures topic < |log.topics| && log.topics[topic] == TopicOf(inputs[0], ds[0])
    ensures Rest(inputs[1..], ds[1..], log, topic + 1, offset, tail)
  {
    var mine := TopicsOf(inputs, ds);
    assert mine == [TopicOf(inputs[0], ds[0])] + TopicsOf(inputs[1..], ds[1..]);
    assert mine[0] == log.topics[topic..][0];
    assert mine[1..] == TopicsOf(inputs[1..], ds[1..]);
    assert log.topics[topic + 1..] == log.topics[topic..][1..];
    assert DataTypes(inputs) == DataTypes(inputs[1..]);
    assert DataValues(inputs, ds) == DataValues(inputs[1..], ds[1..]);
  }

  lemma DataParts(inputs: seq<AbiParam>, ds: seq<DecodedParam>)
    requires |inputs| == |ds| && AllInputsFit(inputs, ds) && inputs != [] && !inputs[0].indexed
    ensures DataTypes(inputs) == [inputs[0].abiType] + DataTypes(inputs[1..])
    ensures DataValues(inputs, ds) == [ds[0]] + DataValues(inputs[1..], ds[1..])
    ensures AllInputsFit(inputs[1..], ds[1..]) && TopicsOf(inputs, ds) == TopicsOf(inputs[1..], ds[1..])
  {
  }

  lemma DataHere(inputs: seq<AbiParam>, ds: seq<DecodedParam>, log: Log, topic: nat, offset: nat, tail: nat)
    requires Rest(inputs, ds, log, topic, offset, tail) && inputs != [] && !inputs[0].indexed
    ensures Holds(log.data, offset, HeadOf(inputs[0].abiType, ds[0], tail))
    ensures Holds(log.data, tail, TailOf(inputs[0].abiType, ds[0]))
  {
    DataParts(inputs, ds);
    LaidFirst(DataTypes(inputs), DataValues(inputs, ds), log.data, 0, offset, tail);
  }

  lemma DataLater(inputs: seq<AbiParam>, ds: seq<DecodedParam>, log: Log, topic: nat, offset: nat, tail: nat,
                  offset': nat, tail': nat)
    requires Rest(inputs, ds, log, topic, offset, tail) && inputs != [] && !inputs[0].indexed
    requires offset' == offset + |HeadOf(inputs[0].abiType, ds[0], tail)|
    requires tail' == tail + |TailOf(inputs[0].abiType, ds[0])|
    ensures Rest(inputs[1..], ds[1..], log, topic, offset', tail')
  {
    DataParts(inputs, ds);
    LaidRest(DataTypes(inputs), DataValues(inputs, ds), log.data, 0, offset, tail, offset', tail');
  }

  lemma IndexedInput(inputs: seq<AbiParam>, ds: seq<DecodedParam>, log: Log, topic: nat, offset: nat, params: Params)
    requires inputs != [] && ds != [] && inputs[0].indexed && InputFits(inputs[0], ds[0])
    requires topic < |log.topics| && log.topics[topic] == TopicOf(inputs[0], ds[0])
    ensures InputsFrom(inputs, log, topic, offset, params)
            == if InputBreaks(inputs[0], ds[0]) then Err(Overflow)
               else InputsFrom(inputs[1..], log, topic + 1, offset, Put(params, inputs[0].name, ds[0]))
  {
    IndexedRoundTrip(inputs[0], ds[0]);
  }

  lemma DataInput(inputs: seq<AbiParam>, ds: seq<DecodedParam>, log: Log, topic: nat, offset: nat, n: nat,
                  params: Params)
    requires inputs != [] && ds != [] && !inputs[0].indexed
    requires ParamAt(inputs[0].abiType, log.data, offset) == Expected(Breaks(inputs[0].abiType, ds[0]), (ds[0], n))
    ensures InputsFrom(inputs, log, topic, offset, params)
            == if InputBreaks(inputs[0], ds[0]) then Err(Overflow)
               else InputsFrom(inputs[1..], log, topic, offset + n, Put(params, inputs[0].name, ds[0]))
  {
  }

  lemma DataDecodes(inputs: seq<AbiParam>, ds: seq<DecodedParam>, log: Log, topic: nat, offset: nat, tail: nat)
    requires Rest(inputs, ds, log, topic, offset, tail) && inputs != [] && !inputs[0].indexed && |log.data| < Usize
    ensures ParamAt(inputs[0].abiType, log.data, offset)
            == Expected(Breaks(inputs[0].abiType, ds[0]), (ds[0], |HeadOf(inputs[0].abiType, ds[0], tail)|))
  {
    DataHere(inputs, ds, log, topic, offset, tail);
    TopParam(inputs[0].abiType, ds[0], log.data, offset, tail);
  }

  /** Where the parameters behind the first one are, if that is in the data. */
  lemma DataNext(inputs: seq<AbiParam>, ds: seq<DecodedParam>, log: Log, topic: nat, offset: nat, tail: nat)
    returns (n: nat, tail': nat)
    requires Rest(inputs, ds, log, topic, offset, tail) && inputs != [] && !inputs[0].indexed
    ensures Rest(inputs[1..], ds[1..], log, topic, offset + n, tail') && n == |HeadOf(inputs[0].abiType, ds[0], tail)|
  {
    n, tail' := |HeadOf(inputs[0].abiType, ds[0], tail)|, tail + |TailOf(inputs[0].abiType, ds[0])|;
    DataLater(inputs, ds, log, topic, offset, tail, offset + n, tail');
  }

  /** The parameters are decoded as they should be. */
  predicate Right(inputs: seq<AbiParam>, ds: seq<DecodedParam>, log: Log, topic: nat, offset: nat, params: Params)
    requires |inputs| == |ds|
  {
    InputsFrom(inputs, log, topic, offset, params) ==
    Expected(AnyInputBreaks(inputs, ds), PutAll(params, Named(inputs, ds)))
  }

  lemma NamedFirst(inputs: seq<AbiParam>, ds: seq<DecodedParam>, params: Params)
    requires |inputs| == |ds| && inputs != []
    ensures PutAll(params, Named(inputs, ds)) ==
            PutAll(Put(params, inputs[0].name, ds[0]), Named(inputs[1..], ds[1..]))
  {
    assert Named(inputs, ds)[1..] == Named(inputs[1..], ds[1..]);
  }

  /** One parameter in front of the others. */
  lemma InputInFront(inputs: seq<AbiParam>, ds: seq<DecodedParam>, log: Log, topic: nat, offset: nat,
                     topic': nat, offset': nat, params: Params)
    requires |inputs| == |ds| && inputs != []
    requires InputsFrom(inputs, log, topic, offset, params)
             == if InputBreaks(inputs[0], ds[0]) then Err(Overflow)
                else InputsFrom(inputs[1..], log, topic', offset', Put(params, inputs[0].name, ds[0]))
    ensures Right(inputs[1..], ds[1..], log, topic', offset', Put(params, inputs[0].name, ds[0])) ==>
            Right(inputs, ds, log, topic, offset, params)
  {
    NamedFirst(inputs, ds, params);
  }

  lemma IndexedInFront(inputs: seq<AbiParam>, ds: seq<DecodedParam>, log: Log, topic: nat, offset: nat, tail: nat,
                       params: Params, topic': nat)
    requires Rest(inputs, ds, log, topic, offset, tail) && inputs != [] && inputs[0].indexed && topic' == topic + 1
    ensures Rest(inputs[1..], ds[1..], log, topic', offset, tail)
    ensures Right(inputs[1..], ds[1..], log, topic', offset, Put(params, inputs[0].name, ds[0])) ==>
            Right(inputs, ds, log, topic, offset, params)
  {
    IndexedFirst(inputs, ds, log, topic, offset, tail);
    IndexedInput(inputs, ds, log, topic, offset, params);
    InputInFront(inputs, ds, log, topic, offset, topic', offset, params);
  }

  lemma DataInFront(inputs: seq<AbiParam>, ds: seq<DecodedParam>, log: Log, topic: nat, offset: nat, tail: nat,
                    params: Params)
    returns (offset': nat, tail': nat)
    requires Rest(inputs, ds, log, topic, offset, tail) && inputs != [] && !inputs[0].indexed && |log.data| < Usize
    ensures Rest(inputs[1..], ds[1..], log, topic, offset', tail')
    ensures Right(inputs[1..], ds[1..], log, topic, offset', Put(params, inputs[0].name, ds[0])) ==>
            Right(inputs, ds, log, topic, offset, params)
  {
    var n;
    n, tail' := DataNext(inputs, ds, log, topic, offset, tail);
    offset' := offset + n;
    DataDecodes(inputs, ds, log, topic, offset, tail);
    DataInput(inputs, ds, log, topic, offset, n, params);
    InputInFront(inputs, ds, log, topic, offset, topic, offset', params);
  }

  lemma {:induction false} InputsRoundTrip(inputs: seq<AbiParam>, ds: seq<DecodedParam>, log: Log,
                                           topic: nat, offset: nat, tail: nat, params: Params)
    requires Rest(inputs, ds, log, topic, offset, tail) && |log.data| < Usize
    ensures Right(inputs, ds, log, topic, offset, params)
    decreases |inputs|
  {
    if inputs != [] {
      var more := Put(params, inputs[0].name, ds[0]);
      if inputs[0].indexed {
        var topic' := topic + 1;
        IndexedInFront(inputs, ds, log, topic, offset, tail, params, topic');
        InputsRoundTrip(inputs[1..], ds[1..], log, topic', offset, tail, more);
      } else {
        var offset', tail' := DataInFront(inputs, ds, log, topic, offset, tail, params);
        InputsRoundTrip(inputs[1..], ds[1..], log, topic, offset', tail', more);
      }
    }
  }

  lemma StartOfLog(event: AbiEvent, ds: seq<DecodedParam>, log: Log)
    requires |event.inputs| == |ds| && AllInputsFit(event.inputs, ds) && Carries(log, event, ds)
    ensures log.topics != [] && log.topics[0] == event.selector
    ensures Rest(event.inputs, ds, log, 1, 0, HeadLength(DataTypes(event.inputs), DataValues(event.inputs, ds)))
  {
    var mine := [event.selector] + TopicsOf(event.inputs, ds);
    assert mine[0] == log.topics[0];
    assert mine[1..] == TopicsOf(event.inputs, ds);
    assert mine[1..] <= log.topics[1..];
    var ts, vs := DataTypes(event.inputs), DataValues(event.inputs, ds);
    var n := HeadLength(ts, vs);
    HeadsLength(ts, vs, n);
    assert Holds(log.data, 0, Heads(ts, vs, n) + Tails(ts, vs));
    HoldsSplit(log.data, 0, Heads(ts, vs, n), Tails(ts, vs));
  }

  /** Decoding a log that carries the encoding of an event's values gives these values under their names, unless one
      of them holds a negative number of exactly 128 bits; then it overflows. Of values with one name the last is kept,
      in the place of the first. */
  lemma EventDecodes(events: map<Topic, AbiEvent>, event: AbiEvent, ds: seq<DecodedParam>, log: Log, contract: string)
    requires event.selector in events && events[event.selector] == event
    requires |event.inputs| == |ds| && AllInputsFit(event.inputs, ds)
    requires Carries(log, event, ds) && |log.data| < Usize
    ensures var r := Decoded(events, log, contract);
      if AnyInputBreaks(event.inputs, ds) then r == Err(Overflow)
      else
        && r.Ok? && r.value.name == event.name && r.value.contract == contract && r.value.raw == log
        && r.value.params == PutAll([], Named(event.inputs, ds))
        && Collected(r.value.params, Named(event.inputs, ds))
        && (Distinct(event.inputs) ==> r.value.params == Named(event.inputs, ds))
  {
    InputsDecode(event, ds, log);
    PutAllCollects(Named(event.inputs, ds));
    NamesStay(event.inputs, ds);
  }

  lemma InputsDecode(event: AbiEvent, ds: seq<DecodedParam>, log: Log)
    requires |event.inputs| == |ds| && AllInputsFit(event.inputs, ds)
    requires Carries(log, event, ds) && |log.data| < Usize
    ensures log.topics != [] && log.topics[0] == event.selector
    ensures Right(event.inputs, ds, log, 1, 0, [])
  {
    var n := HeadLength(DataTypes(event.inputs), DataValues(event.inputs, ds));
    StartOfLog(event, ds, log);
    InputsRoundTrip(event.inputs, ds, log, 1, 0, n, []);
  }

  lemma NamesStay(inputs: seq<AbiParam>, ds: seq<DecodedParam>)
    requires |inputs| == |ds|
    ensures Distinct(inputs) ==> PutAll([], Named(inputs, ds)) == Named(inputs, ds)
  {
    if Distinct(inputs) {
      assert [] + Named(inputs, ds) == Named(inputs, ds);
      PutAllDistinct([], Named(inputs, ds));
    }
  }

  /** With distinct names all values come back, in order. */
  lemma EventRoundTrip(events: map<Topic, AbiEvent>, event: AbiEvent, ds: seq<DecodedParam>, log: Log, contract: string)
    requires event.selector in events && events[event.selector] == event && Distinct(event.inputs)
    requires |event.inputs| == |ds| && AllInputsFit(event.inputs, ds)
    requires Carries(log, event, ds) && |log.data| < Usize
    ensures Decoded(events, log, contract)
            == Expected(AnyInputBreaks(event.inputs, ds),
                        DecodedEvent(event.name, contract, Named(event.inputs, ds), log))
  {
    EventDecodes(events, event, ds, log, contract);
  }

  /** So the encoding determines the values: two lists of values carried by one log are the same. */
  lemma EncodingInjective(event: AbiEvent, ds: seq<DecodedParam>, es: seq<DecodedParam>, log: Log)
    requires Distinct(event.inputs) && |log.data| < Usize
    requires |event.inputs| == |ds| == |es| && AllInputsFit(event.inputs, ds) && AllInputsFit(event.inputs, es)
    requires Carries(log, event, ds) && Carries(log, event, es)
    requires !AnyInputBreaks(event.inputs, ds) && !AnyInputBreaks(event.inputs, es)
    ensures ds == es
  {
    var events := map[event.selector := event];
    EventRoundTrip(events, event, ds, log, "");
    EventRoundTrip(events, event, es, log, "");
    assert Named(event.inputs, ds) == Named(event.inputs, es);
    forall i | 0 <= i < |ds|
      ensures ds[i] == es[i]
    {
      assert Named(event.inputs, ds)[i].1 == Named(event.inputs, es)[i].1;
    }
  }

  // The decoder

  function BySelector(abi: seq<AbiEvent>): map<Topic, AbiEvent> {
    if abi == [] then map[]
    else BySelector(abi[..|abi| - 1])[abi[|abi| - 1].selector := abi[|abi| - 1]]
  }

  /** Of several events with one selector the last one is found, and nothing under a selector of none. */
  lemma {:induction false} LastEventFound(abi: seq<AbiEvent>, i: nat)
    requires i < |abi| && forall j :: i < j < |abi| ==> abi[j].selector != abi[i].selector
    ensures abi[i].selector in BySelector(abi) && BySelector(abi)[abi[i].selector] == abi[i]
  {
    if i < |abi| - 1 {
      LastEventFound(abi[..|abi| - 1], i);
    }
  }

  lemma {:induction false} KnownSelectors(abi: seq<AbiEvent>, selector: Topic)
    ensures selector in BySelector(abi) <==> exists e <- abi :: e.selector == selector
  {
    if abi != [] {
      var front, last := abi[..|abi| - 1], abi[|abi| - 1];
      KnownSelectors(front, selector);
      assert abi == front + [last];
    }
  }

  // Errors

  predicate DataError(e: AbiError) {
    e.DecodeMismatch? || e.Overflow?
  }

  lemma WordErrors(t: AbiType, slot: seq<byte>)
    requires OneWord(t) && |slot| == 32 && WordValue(t, slot).Err?
    ensures DataError(WordValue(t, slot).error)
  {
  }

  lemma {:induction false} ParamErrors(t: AbiType, data: seq<byte>, at: nat)
    ensures ParamAt(t, data, at).Err? ==> DataError(ParamAt(t, data, at).error)
    ensures AtOffset(t, data, at).Err? ==> DataError(AtOffset(t, data, at).error)
    decreases t, 2, 0
  {
    if t.Array? {
      var p := ReadUsize(data, at);
      if p.Ok? {
        CountedErrors(t.inner, data, p.value);
      }
      CountedErrors(t.inner, data, at);
    } else if t.FixedArray? {
      var p := ReadUsize(data, at);
      if p.Ok? {
        ItemsErrors(t.inner, t.len, data, p.value);
      }
      ItemsErrors(t.inner, t.len, data, at);
    } else if t.Tuple? {
      var p := ReadUsize(data, at);
      if p.Ok? {
        TupleErrors(t.params, data, p.value, p.value);
      }
      TupleErrors(t.params, data, at, at);
    }
  }

  lemma CountedErrors(inner: AbiType, data: seq<byte>, at: nat)
    ensures CountedItems(inner, data, at).Err? ==> DataError(CountedItems(inner, data, at).error)
    decreases inner, 4, 0
  {
    var n := ReadUsize(data, at);
    if n.Ok? {
      ItemsErrors(inner, n.value, data, at + 32);
    }
  }

  lemma {:induction false} ItemsErrors(inner: AbiType, n: nat, data: seq<byte>, at: nat)
    ensures ItemsFrom(inner, n, data, at).Err? ==> DataError(ItemsFrom(inner, n, data, at).error)
    decreases inner, 3, n
  {
    if n > 0 {
      var one := ParamAt(inner, data, at);
      ParamErrors(inner, data, at);
      if one.Ok? {
        ItemsErrors(inner, n - 1, data, at + one.value.1);
      }
    }
  }

  lemma {:induction false} TupleErrors(params: seq<AbiParam>, data: seq<byte>, base: nat, pos: nat)
    ensures TupleFrom(params, data, base, pos).Err? ==> DataError(TupleFrom(params, data, base, pos).error)
    decreases params, 0, 0
  {
    if params != [] {
      var t := params[0].abiType;
      var one := MemberAt(t, data, base, pos);
      var offset := ReadUsize(data, pos);
      ParamErrors(t, data, pos);
      if offset.Ok? {
        ParamErrors(t, data, base + offset.value);
      }
      if one.Ok? {
        TupleErrors(params[1..], data, base, pos + one.value.1);
      }
    }
  }

  lemma {:induction false} InputErrors(inputs: seq<AbiParam>, log: Log, topic: nat, offset: nat, params: Params)
    ensures var r := InputsFrom(inputs, log, topic, offset, params); r.Err? ==> DataError(r.error)
    decreases |inputs|
  {
    if inputs != [] {
      var p := inputs[0];
      if p.indexed {
        if topic < |log.topics| {
          var d := IndexedValue(p.abiType, log.topics[topic]);
          if d.Ok? {
            InputErrors(inputs[1..], log, topic + 1, offset, Put(params, p.name, d.value));
          }
        }
      } else {
        var d := ParamAt(p.abiType, log.data, offset);
        ParamErrors(p.abiType, log.data, offset);
        if d.Ok? {
          InputErrors(inputs[1..], log, topic, offset + d.value.1, Put(params, p.name, d.value.0));
        }
      }
    }
  }

  /** A log is reported as one of another contract if and only if it has no topic or no event of the ABI has its first
      topic for selector; any other failure is a mismatch or an overflow. */
  lemma InvalidSelectorIff(abi: seq<AbiEvent>, log: Log, contract: string)
    ensures var r := Decoded(BySelector(abi), log, contract);
      && (r == Err(InvalidSelector) <==> log.topics == [] || forall e <- abi :: e.selector != log.topics[0])
      && (r.Err? && r != Err(InvalidSelector) ==> DataError(r.error))
  {
    if log.topics != [] {
      KnownSelectors(abi, log.topics[0]);
      if log.topics[0] in BySelector(abi) {
        InputErrors(BySelector(abi)[log.topics[0]].inputs, log, 1, 0, []);
      }
    }
  }

  function IndexedCount(inputs: seq<AbiParam>): nat {
    if inputs == [] then 0 else (if inputs[0].indexed then 1 else 0) + IndexedCount(inputs[1..])
  }

  lemma {:induction false} TopicsNeeded(inputs: seq<AbiParam>, log: Log, topic: nat, offset: nat, params: Params)
    requires topic <= |log.topics| && InputsFrom(inputs, log, topic, offset, params).Ok?
    ensures topic + IndexedCount(inputs) <= |log.topics|
    decreases |inputs|
  {
    if inputs != [] {
      var p := inputs[0];
      if p.indexed {
        TopicsNeeded(inputs[1..], log, topic + 1, offset,
                     Put(params, p.name, IndexedValue(p.abiType, log.topics[topic]).value));
      } else {
        var d := ParamAt(p.abiType, log.data, offset).value;
        TopicsNeeded(inputs[1..], log, topic, offset + d.1, Put(params, p.name, d.0));
      }
    }
  }

  /** A log with fewer topics than its event has indexed inputs is malformed. */
  lemma TooFewTopics(events: map<Topic, AbiEvent>, log: Log, contract: string)
    requires log.topics != [] && log.topics[0] in events
    requires |log.topics| <= IndexedCount(events[log.topics[0]].inputs)
    ensures Decoded(events, log, contract).Err? && DataError(Decoded(events, log, contract).error)
  {
    var inputs := events[log.topics[0]].inputs;
    InputErrors(inputs, log, 1, 0, []);
    if InputsFrom(inputs, log, 1, 0, []).Ok? {
      TopicsNeeded(inputs, log, 1, 0, []);
    }
  }

  method NewDecoder(abi: seq<AbiEvent>) returns (events: map<Topic, AbiEvent>)
    ensures events == BySelector(abi)
  {
    events := map[];
    for k := 0 to |abi|
      invariant events == BySelector(abi[..k])
    {
      events := events[abi[k].selector := abi[k]];
      assert abi[..k + 1][..k] == abi[..k];
    }
    assert abi[..|abi|] == abi;
  }

  /** Decodes a log. */
  method Decode(events: map<Topic, AbiEvent>, log: Log, contract: string) returns (r: Result<DecodedEvent, AbiError>)
    ensures r == Decoded(events, log, contract)
  {
    if log.topics == [] || log.topics[0] !in events {
      return Err(InvalidSelector);
    }
    var event := events[log.topics[0]];
    var params: Params := [];
    var topic, offset := 1, 0;
    assert event.inputs[0..] == event.inputs;
    for i := 0 to |event.inputs|
      invariant topic >= 0 && offset >= 0
      invariant InputsFrom(event.inputs, log, 1, 0, []) == InputsFrom(event.inputs[i..], log, topic, offset, params)
    {
      var input := event.inputs[i];
      assert event.inputs[i..][0] == input && event.inputs[i..][1..] == event.inputs[i + 1..];
      if input.indexed {
        if topic >= |log.topics| {
          return Err(DecodeMismatch);
        }
        var value := IndexedValue(input.abiType, log.topics[topic]);
        if value.Err? {
          return Err(value.error);
        }
        params := Put(params, input.name, value.value);
        topic := topic + 1;
      } else {
        var value := DecodeParam(input.abiType, log.data, offset);
        if value.Err? {
          return Err(value.error);
        }
        params := Put(params, input.name, value.value.0);
        offset := offset + value.value.1;
      }
    }
    return Ok(DecodedEvent(event.name, contract, params, log));
  }
}
