/**
 * The append-only trace: each event carries its position, the hash of its predecessor, and a hash
 * over itself.  The hash is any injective function; the file is a variable.
 */
module TraceLog {
  import opened Common

  type Digest = string

  /** `previous_event_hash` may be absent, null or a digest; absent and null read the same. */
  datatype Link = Absent | Null | Digested(digest: Digest)

  /** What is hashed: the event without its own hash. */
  datatype Body = Body(
    eventId: string,
    runId: string,
    seqNo: int,
    kind: string,
    timestamp: string,
    agentRole: Option<string>,
    artifactRefs: seq<string>,
    previous: Link,
    payload: map<string, string>)

  datatype TraceEvent = TraceEvent(body: Body, hash: Option<Digest>)

  type HashFn = Body -> Digest

  ghost predicate Injective(h: HashFn) {
    forall a, b :: h(a) == h(b) ==> a == b
  }

  function LinkOf(digest: Option<Digest>): Link {
    if digest.Some? then Digested(digest.value) else Null
  }

  function Read(link: Link): Option<Digest> {
    if link.Digested? then Some(link.digest) else None
  }

  /** What the caller supplies; the payload has been redacted already. */
  datatype EventArgs = EventArgs(
    eventId: string, runId: string, kind: string, timestamp: string,
    agentRole: Option<string>, artifactRefs: seq<string>, payload: map<string, string>)

  function CreateTraceEvent(args: EventArgs, seqNo: int, previous: Option<Digest>, h: HashFn): TraceEvent {
    var body := Body(args.eventId, args.runId, seqNo, args.kind, args.timestamp,
                     args.agentRole, args.artifactRefs, LinkOf(previous), args.payload);
    TraceEvent(body, Some(h(body)))
  }

  function NextEvent(events: seq<TraceEvent>, args: EventArgs, h: HashFn): TraceEvent {
    if events == [] then CreateTraceEvent(args, 0, None, h)
    else
      var last := events[|events| - 1];
      CreateTraceEvent(args, last.body.seqNo + 1, last.hash, h)
  }

  // ----- validation -----

  datatype Finding = SeqGap(index: nat) | ChainBreak(index: nat) | HashMismatch(index: nat)

  function PreviousHash(events: seq<TraceEvent>, i: nat): Option<Digest>
    requires i <= |events|
  {
    if i == 0 then None else events[i - 1].hash
  }

  predicate EventOk(events: seq<TraceEvent>, i: nat, h: HashFn)
    requires i < |events|
  {
    && events[i].body.seqNo == i
    && Read(events[i].body.previous) == PreviousHash(events, i)
    && events[i].hash == Some(h(events[i].body))
  }

  predicate ValidTrace(events: seq<TraceEvent>, h: HashFn) {
    forall i | 0 <= i < |events| :: EventOk(events, i, h)
  }

  function FaultsAt(events: seq<TraceEvent>, i: nat, h: HashFn): seq<Finding>
    requires i < |events|
  {
    (if events[i].body.seqNo != i then [SeqGap(i)] else [])
    + (if Read(events[i].body.previous) != PreviousHash(events, i) then [ChainBreak(i)] else [])
    + (if events[i].hash != Some(h(events[i].body)) then [HashMismatch(i)] else [])
  }

  /** The faults of the first `n` events, in order. */
  function Faults(events: seq<TraceEvent>, n: nat, h: HashFn): seq<Finding>
    requires n <= |events|
  {
    if n == 0 then [] else Faults(events, n - 1, h) + FaultsAt(events, n - 1, h)
  }

  /** All faults of a trace, in order. */
  function TraceFaults(events: seq<TraceEvent>, h: HashFn): seq<Finding> {
    Faults(events, |events|, h)
  }

  lemma {:induction false} NoFaultIsValid(events: seq<TraceEvent>, n: nat, h: HashFn)
    requires n <= |events|
    ensures Faults(events, n, h) == [] <==> forall i | 0 <= i < n :: EventOk(events, i, h)
  {
    if n > 0 {
      NoFaultIsValid(events, n - 1, h);
      NoFaultAt(events, n - 1, h);
    }
  }

  lemma NoFaultAt(events: seq<TraceEvent>, i: nat, h: HashFn)
    requires i < |events|
    ensures FaultsAt(events, i, h) == [] <==> EventOk(events, i, h)
  {
  }

  /** The loop of `validateTraceEvent`: it reports exactly the faults, so nothing exactly for a valid trace. */
  method ValidateTrace(events: seq<TraceEvent>, h: HashFn) returns (errors: seq<Finding>)
    ensures errors == TraceFaults(events, h)
    ensures errors == [] <==> ValidTrace(events, h)
  {
    errors := [];
    var prev: Option<Digest> := None;
    for i := 0 to |events|
      invariant prev == PreviousHash(events, i)
      invariant errors == Faults(events, i, h)
    {
      ghost var before := errors;
      var e := events[i];
      if e.body.seqNo != i {
        errors := errors + [SeqGap(i)];
      }
      if Read(e.body.previous) != prev {
        errors := errors + [ChainBreak(i)];
      }
      if e.hash != Some(h(e.body)) {
        errors := errors + [HashMismatch(i)];
      }
      assert errors == before + FaultsAt(events, i, h);
      prev := e.hash;
    }
    NoFaultIsValid(events, |events|, h);
  }

  /** The next event carries what the caller gave, its place, and the hash of its predecessor and of itself. */
  lemma NextEventCarries(events: seq<TraceEvent>, args: EventArgs, h: HashFn)
    ensures
      var e := NextEvent(events, args, h);
      && e.body.eventId == args.eventId && e.body.runId == args.runId && e.body.kind == args.kind
      && e.body.timestamp == args.timestamp && e.body.agentRole == args.agentRole
      && e.body.artifactRefs == args.artifactRefs && e.body.payload == args.payload
      && e.hash == Some(h(e.body))
      && (events == [] ==> e.body.seqNo == 0 && e.body.previous == Null)
      && (events != [] ==>
            var last := events[|events| - 1];
            && e.body.seqNo == last.body.seqNo + 1
            && e.body.previous == (if last.hash.Some? then Digested(last.hash.value) else Null))
  {
  }

  /** Appending the next event keeps a trace valid. */
  lemma AppendKeepsValid(events: seq<TraceEvent>, args: EventArgs, h: HashFn)
    requires ValidTrace(events, h)
    ensures ValidTrace(events + [NextEvent(events, args, h)], h)
  {
    var all := events + [NextEvent(events, args, h)];
    forall i | 0 <= i < |all|
      ensures EventOk(all, i, h)
    {
      if i < |events| {
        assert EventOk(events, i, h);
      } else if events != [] {
        assert EventOk(events, |events| - 1, h);
      }
    }
  }

  /** Two accepted traces that end in the same hash are the same, event for event. */
  lemma {:induction false} SameFinalHashSameTrace(a: seq<TraceEvent>, b: seq<TraceEvent>, h: HashFn)
    requires Injective(h) && ValidTrace(a, h) && ValidTrace(b, h)
    requires a != [] && b != [] && a[|a| - 1].hash == b[|b| - 1].hash
    ensures a == b
    decreases |a|
  {
    var n, m := |a| - 1, |b| - 1;
    assert EventOk(a, n, h) && EventOk(b, m, h);
    assert h(a[n].body) == h(b[m].body);
    assert a[n] == b[m] && n == m;
    if n > 0 {
      assert EventOk(a, n - 1, h) && EventOk(b, n - 1, h);
      PrefixIsValid(a, n, h);
      PrefixIsValid(b, n, h);
      SameFinalHashSameTrace(a[..n], b[..n], h);
      assert a == a[..n] + [a[n]] && b == b[..n] + [b[n]];
    }
  }

  lemma PrefixIsValid(events: seq<TraceEvent>, n: nat, h: HashFn)
    requires ValidTrace(events, h) && n <= |events|
    ensures ValidTrace(events[..n], h)
  {
    forall i | 0 <= i < n
      ensures EventOk(events[..n], i, h)
    {
      assert EventOk(events, i, h);
    }
  }

  /** Without the final hash the tail can be cut off unnoticed: every prefix is accepted. */
  lemma TruncationIsNotDetected(events: seq<TraceEvent>, h: HashFn)
    requires ValidTrace(events, h)
    ensures forall n: nat | n <= |events| :: ValidTrace(events[..n], h)
  {
    forall n: nat | n <= |events|
      ensures ValidTrace(events[..n], h)
    {
      PrefixIsValid(events, n, h);
    }
  }

  // ----- the file -----

  function Appended(events: seq<TraceEvent>, args: seq<EventArgs>, h: HashFn): seq<TraceEvent> {
    if args == [] then events
    else
      var before := Appended(events, args[..|args| - 1], h);
      before + [NextEvent(before, args[|args| - 1], h)]
  }

  lemma {:induction false} AppendedIsValid(events: seq<TraceEvent>, args: seq<EventArgs>, h: HashFn)
    requires ValidTrace(events, h)
    ensures ValidTrace(Appended(events, args, h), h)
    ensures events <= Appended(events, args, h) && |Appended(events, args, h)| == |events| + |args|
  {
    if args != [] {
      AppendedIsValid(events, args[..|args| - 1], h);
      AppendKeepsValid(Appended(events, args[..|args| - 1], h), args[|args| - 1], h);
    }
  }

  class TraceFile {
    var events: seq<TraceEvent>

    constructor ()
      ensures events == []
    {
      events := [];
    }

    method AppendJsonl(e: TraceEvent)
      modifies this
      ensures events == old(events) + [e]
    {
      events := events + [e];
    }

    method AppendNextEvent(args: EventArgs, h: HashFn) returns (e: TraceEvent)
      modifies this
      ensures events == old(events) + [e] && e == NextEvent(old(events), args, h)
      ensures ValidTrace(old(events), h) ==> ValidTrace(events, h)
    {
      e := NextEvent(events, args, h);
      ghost var wasValid := ValidTrace(events, h);
      if wasValid {
        AppendKeepsValid(events, args, h);
      }
      AppendJsonl(e);
    }

    /** The registration loop reads the file once and keeps its own copy in step with it. */
    method RecordRegistrations(registrations: seq<EventArgs>, h: HashFn) returns (count: nat)
      modifies this
      ensures count == |registrations|
      ensures events == Appended(old(events), registrations, h)
      ensures ValidTrace(old(events), h) ==> ValidTrace(events, h)
    {
      var existing := events;
      for i := 0 to |registrations|
        invariant existing == events == Appended(old(events), registrations[..i], h)
      {
        assert registrations[..i + 1][..i] == registrations[..i];
        var event := NextEvent(existing, registrations[i], h);
        AppendJsonl(event);
        existing := existing + [event];
      }
      assert registrations[..|registrations|] == registrations;
      ghost var wasValid := ValidTrace(old(events), h);
      if wasValid {
        AppendedIsValid(old(events), registrations, h);
      }
      count := |registrations|;
    }
  }
}
