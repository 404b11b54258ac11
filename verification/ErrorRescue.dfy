/**
 Error rescue in the trace processor: candidates are collected first, sampled under the lock at one
 clamped time, and stamped by index afterwards. Proved equal to one pass in order.
 */
module ErrorRescue {
  import opened Common
  import opened SamplerModel
  import opened Signatures
  import opened RateLimited

  datatype Span = Span(
    traceId: u64,
    service: Bytes,
    name: Bytes,
    resource: Bytes,
    error: int,
    meta: map<string, Bytes>,
    metrics: map<string, real>)

  datatype Chunk = Chunk(priority: int, tags: map<string, Bytes>, spans: seq<Span>)

  datatype TracerPayload = TracerPayload(env: Bytes, chunks: seq<Chunk>)

  datatype Collection = V07(payloads: seq<TracerPayload>) | OtherVersion

  /** What rescue reads of the configuration, and how the root span of a chunk is found. */
  datatype Config = Config(env: Bytes, tracerDropEnabled: bool, rootOf: seq<Span> -> Option<nat>)

  /** `-4`, the decision maker of manual drops. */
  const MANUAL_DECISION_MAKER: Bytes := [45, 52]

  function Lookup<V>(m: map<string, V>, key: string): Option<V> {
    if key in m then Some(m[key]) else None
  }

  function ViewOf(span: Span): SpanView {
    SpanView(span.service, span.name, span.resource, span.error != 0,
             Lookup(span.meta, "http.status_code"), Lookup(span.meta, "error.type"))
  }

  function Eligible(chunk: Chunk, tracerDropEnabled: bool): bool {
    if chunk.priority == 0 then true
    else if chunk.priority == -128 then false
    else if chunk.priority == -1 then tracerDropEnabled && Lookup(chunk.tags, "_dd.p.dm") != Some(MANUAL_DECISION_MAKER)
    else tracerDropEnabled && chunk.priority < 0
  }

  predicate Errored(chunk: Chunk) {
    exists i | 0 <= i < |chunk.spans| :: chunk.spans[i].error != 0
  }

  /** `rescue_root_index`. A root outside the chunk counts as no root. */
  function RescueRoot(chunk: Chunk, config: Config): (r: Option<nat>)
    ensures r.Some? ==> r.value < |chunk.spans|
  {
    if !Eligible(chunk, config.tracerDropEnabled) || !Errored(chunk) then None else
      var root := config.rootOf(chunk.spans);
      if root.Some? && root.value >= |chunk.spans| then None else root
  }

  /** A manual drop: priority -1 with decision maker -4 in the tags of the chunk. */
  ghost predicate ManualDrop(chunk: Chunk) {
    chunk.priority == -1 && "_dd.p.dm" in chunk.tags && chunk.tags["_dd.p.dm"] == [45, 52]
  }

  /**
   A chunk qualifies when it has an errored span and a root, and its priority is 0, or, with the
   feature on, negative: except -128, and except manual drops.
   */
  lemma WhoQualifies(chunk: Chunk, config: Config)
    ensures RescueRoot(chunk, config).Some? <==>
      && (exists i :: 0 <= i < |chunk.spans| && chunk.spans[i].error != 0)
      && config.rootOf(chunk.spans).Some? && config.rootOf(chunk.spans).value < |chunk.spans|
      && chunk.priority <= 0 && (chunk.priority < 0 ==> config.tracerDropEnabled && chunk.priority != -128 && !ManualDrop(chunk))
    ensures RescueRoot(chunk, config).Some? ==> RescueRoot(chunk, config) == config.rootOf(chunk.spans)
  {
  }

  // ----- Candidates -----

  type Position = (nat, nat)

  predicate InRange(payloads: seq<TracerPayload>, p: Position) {
    p.0 < |payloads| && p.1 < |payloads[p.0].chunks|
  }

  datatype Candidate = Candidate(at: Position, root: nat, trace: TraceView)

  function TraceOf(payloadEnv: Bytes, chunk: Chunk, root: nat, config: Config): TraceView
    requires root < |chunk.spans|
  {
    TraceView(
      if payloadEnv == [] then config.env else payloadEnv,
      chunk.spans[root].traceId,
      root,
      if "_sample_rate" in chunk.spans[root].metrics then chunk.spans[root].metrics["_sample_rate"] else 1.0,
      seq(|chunk.spans|, i requires 0 <= i < |chunk.spans| => ViewOf(chunk.spans[i])))
  }

  /**
   What the sampler sees of a chunk: the environment of the payload, or the configured one; id and
   upstream rate of the root; and of every span what identifies it.
   */
  lemma WhatIsSampled(payloadEnv: Bytes, chunk: Chunk, root: nat, config: Config)
    requires root < |chunk.spans|
    ensures var t, metrics := TraceOf(payloadEnv, chunk, root, config), chunk.spans[root].metrics;
      && Scored(Limiter(Initial(1.0, 1.0), false, None), t) && t.traceId == chunk.spans[root].traceId && t.rootIndex == root
      && t.env == (if |payloadEnv| > 0 then payloadEnv else config.env)
      && (ClientRate(t) < 1.0 <==> "_sample_rate" in metrics && 0.0 < metrics["_sample_rate"] < 1.0)
      && (ClientRate(t) < 1.0 ==> ClientRate(t) == metrics["_sample_rate"])
      && |t.spans| == |chunk.spans|
      && forall i | 0 <= i < |t.spans| :: var view, span := t.spans[i], chunk.spans[i];
           && view.service == span.service && view.name == span.name && view.resource == span.resource
           && (view.error <==> span.error != 0)
           && (forall x :: view.httpStatusCode == Some(x) <==> "http.status_code" in span.meta && span.meta["http.status_code"] == x)
           && (forall x :: view.errorType == Some(x) <==> "error.type" in span.meta && span.meta["error.type"] == x)
  {
  }

  function CandidateAt(payloads: seq<TracerPayload>, p: Position, config: Config): Option<Candidate>
    requires InRange(payloads, p)
  {
    var chunk := payloads[p.0].chunks[p.1];
    var root := RescueRoot(chunk, config);
    if root.None? then None else Some(Candidate(p, root.value, TraceOf(payloads[p.0].env, chunk, root.value, config)))
  }

  ghost predicate AllInRange(payloads: seq<TracerPayload>, positions: seq<Position>) {
    forall i | 0 <= i < |positions| :: InRange(payloads, positions[i])
  }

  function Candidates(payloads: seq<TracerPayload>, positions: seq<Position>, config: Config): seq<Candidate>
    requires AllInRange(payloads, positions)
  {
    if positions == [] then [] else
      var front := Candidates(payloads, positions[..|positions| - 1], config);
      var last := CandidateAt(payloads, positions[|positions| - 1], config);
      if last.Some? then front + [last.value] else front
  }

  // ----- Sampling and stamping -----

  function CallsAt(now: int, candidates: seq<Candidate>): seq<Call> {
    seq(|candidates|, i requires 0 <= i < |candidates| => Call(now, candidates[i].trace))
  }

  datatype Kept = Kept(at: Position, root: nat, errorsSr: real)

  /** The candidates that are kept, each decided with the sampler as the ones before left it. */
  ghost function KeptOf(l: Limiter, now: int, candidates: seq<Candidate>): seq<Kept> {
    if candidates == [] then [] else
      var n := |candidates| - 1;
      var front, c := KeptOf(l, now, candidates[..n]), candidates[n];
      var d := Decision(AfterCalls(l, CallsAt(now, candidates[..n])), now, c.trace);
      if d.Keep? then front + [Kept(c.at, c.root, d.errorsSr)] else front
  }

  predicate Stampable(payloads: seq<TracerPayload>, k: Kept) {
    InRange(payloads, k.at) && k.root < |payloads[k.at.0].chunks[k.at.1].spans|
  }

  function StampChunk(chunk: Chunk, root: nat, errorsSr: real): Chunk
    requires root < |chunk.spans|
  {
    var span := chunk.spans[root];
    chunk.(spans := chunk.spans[root := span.(metrics := span.metrics["_dd.errors_sr" := errorsSr])])
  }

  /** Same payloads, chunks and spans: only span contents may differ. */
  ghost predicate SameShape(a: seq<TracerPayload>, b: seq<TracerPayload>) {
    && |a| == |b|
    && (forall i | 0 <= i < |a| :: |a[i].chunks| == |b[i].chunks|)
    && (forall i, j | 0 <= i < |a| && 0 <= j < |a[i].chunks| :: |a[i].chunks[j].spans| == |b[i].chunks[j].spans|)
  }

  lemma SameShapeTwice(a: seq<TracerPayload>, b: seq<TracerPayload>, c: seq<TracerPayload>)
    requires SameShape(a, b) && SameShape(b, c)
    ensures SameShape(a, c)
  {
  }

  function Stamp(payloads: seq<TracerPayload>, k: Kept): (r: seq<TracerPayload>)
    requires Stampable(payloads, k)
    ensures SameShape(payloads, r)
  {
    var payload := payloads[k.at.0];
    payloads[k.at.0 := payload.(chunks := payload.chunks[k.at.1 := StampChunk(payload.chunks[k.at.1], k.root, k.errorsSr)])]
  }

  ghost predicate AllStampable(payloads: seq<TracerPayload>, kept: seq<Kept>) {
    forall i | 0 <= i < |kept| :: Stampable(payloads, kept[i])
  }

  ghost function WriteBack(payloads: seq<TracerPayload>, kept: seq<Kept>): (r: seq<TracerPayload>)
    requires AllStampable(payloads, kept)
    ensures SameShape(payloads, r)
  {
    if kept == [] then payloads else
      Stamp(WriteBack(payloads, kept[..|kept| - 1]), kept[|kept| - 1])
  }

  // ----- One pass in order -----

  datatype Pass = Pass(payloads: seq<TracerPayload>, limiter: Limiter)

  /** Visits the chunks in order, and samples and stamps each candidate where it stands. */
  ghost function OnePass(payloads: seq<TracerPayload>, l: Limiter, now: int, positions: seq<Position>, config: Config): (r: Pass)
    requires AllInRange(payloads, positions)
    ensures SameShape(payloads, r.payloads)
  {
    if positions == [] then Pass(payloads, l) else
      var n := |positions| - 1;
      var before, p := OnePass(payloads, l, now, positions[..n], config), positions[n];
      var c := CandidateAt(before.payloads, p, config);
      if c.None? then before else
        var d := Decision(before.limiter, now, c.value.trace);
        var limiter := AfterSample(before.limiter, now, c.value.trace);
        if d.Drop? then Pass(before.payloads, limiter) else
          var stamped := Stamp(before.payloads, Kept(p, c.value.root, d.errorsSr));
          SameShapeTwice(payloads, before.payloads, stamped);
          Pass(stamped, limiter)
  }

  lemma CallsAppend(now: int, candidates: seq<Candidate>, c: Candidate)
    ensures CallsAt(now, candidates + [c]) == CallsAt(now, candidates) + [Call(now, c.trace)]
  {
  }

  lemma AfterOneMoreCall(l: Limiter, calls: seq<Call>, c: Call)
    ensures AfterCalls(l, calls + [c]) == AfterSample(AfterCalls(l, calls), c.now, c.trace)
  {
    hide AfterSample;
    assert (calls + [c])[..|calls|] == calls && (calls + [c])[|calls|] == c;
  }

  lemma KeptAppend(l: Limiter, now: int, candidates: seq<Candidate>, c: Candidate)
    ensures var d := Decision(AfterCalls(l, CallsAt(now, candidates)), now, c.trace);
      KeptOf(l, now, candidates + [c]) ==
        if d.Keep? then KeptOf(l, now, candidates) + [Kept(c.at, c.root, d.errorsSr)] else KeptOf(l, now, candidates)
  {
    hide Decision, AfterCalls;
    assert (candidates + [c])[..|candidates|] == candidates;
  }

  lemma WriteBackAppend(payloads: seq<TracerPayload>, kept: seq<Kept>, k: Kept)
    requires AllStampable(payloads, kept) && Stampable(payloads, k)
    ensures AllStampable(payloads, kept + [k])
    ensures WriteBack(payloads, kept + [k]) == Stamp(WriteBack(payloads, kept), k)
  {
    assert (kept + [k])[..|kept|] == kept;
  }

  /** A chunk not visited yet is as it was. */
  lemma {:induction false} PassLeavesOthers(payloads: seq<TracerPayload>, l: Limiter, now: int, positions: seq<Position>, config: Config, q: Position)
    requires AllInRange(payloads, positions) && InRange(payloads, q) && q !in positions
    ensures var after := OnePass(payloads, l, now, positions, config).payloads;
      InRange(after, q) && after[q.0].chunks[q.1] == payloads[q.0].chunks[q.1] && after[q.0].env == payloads[q.0].env
  {
    hide Decision, AfterSample, RescueRoot, TraceOf;
    if positions != [] {
      PassLeavesOthers(payloads, l, now, positions[..|positions| - 1], config, q);
    }
  }

  /**
   Collecting, sampling and writing back by index comes to the same payloads and the same sampler
   as the single pass.
   */
  lemma {:induction false} TwoPhasesAreOnePass(payloads: seq<TracerPayload>, l: Limiter, now: int, positions: seq<Position>, config: Config)
    requires AllInRange(payloads, positions) && Distinct(positions)
    ensures var candidates := Candidates(payloads, positions, config);
      && AllStampable(payloads, KeptOf(l, now, candidates))
      && OnePass(payloads, l, now, positions, config)
         == Pass(WriteBack(payloads, KeptOf(l, now, candidates)), AfterCalls(l, CallsAt(now, candidates)))
  {
    hide Decision, AfterSample, AfterCalls, CandidateAt, Stamp, KeptOf, CallsAt, WriteBack;
    hide AllStampable, Stampable, AllInRange, InRange, SameShape, Distinct;
    if positions == [] {
      NoCandidates(payloads, l, now);
    } else {
      var n := |positions| - 1;
      var front, p := positions[..n], positions[n];
      LastPosition(payloads, positions);
      TwoPhasesAreOnePass(payloads, l, now, front, config);
      PassLeavesOthers(payloads, l, now, front, config, p);
      CandidateIsStampable(payloads, p, config);
      PhaseStep(payloads, l, now, Candidates(payloads, front, config), CandidateAt(payloads, p, config));
      SameCandidate(payloads, OnePass(payloads, l, now, front, config).payloads, p, config);
    }
  }

  lemma LastPosition(payloads: seq<TracerPayload>, positions: seq<Position>)
    requires AllInRange(payloads, positions) && Distinct(positions) && positions != []
    ensures var front, p := positions[..|positions| - 1], positions[|positions| - 1];
      AllInRange(payloads, front) && Distinct(front) && InRange(payloads, p) && p !in front
  {
  }

  lemma CandidateIsStampable(payloads: seq<TracerPayload>, p: Position, config: Config)
    requires InRange(payloads, p)
    ensures var c := CandidateAt(payloads, p, config);
      c.Some? ==> c.value.at == p && Stampable(payloads, Kept(p, c.value.root, 0.0))
  {
    hide TraceOf;
  }

  lemma NoCandidates(payloads: seq<TracerPayload>, l: Limiter, now: int)
    ensures KeptOf(l, now, []) == [] && AllStampable(payloads, []) && WriteBack(payloads, []) == payloads
    ensures AfterCalls(l, CallsAt(now, [])) == l
  {
  }

  lemma SameCandidate(a: seq<TracerPayload>, b: seq<TracerPayload>, p: Position, config: Config)
    requires InRange(a, p) && InRange(b, p)
    requires a[p.0].chunks[p.1] == b[p.0].chunks[p.1] && a[p.0].env == b[p.0].env
    ensures CandidateAt(a, p, config) == CandidateAt(b, p, config)
  {
  }

  /** One more candidate in the two phases: one more sample, and one more stamp if it is kept. */
  lemma PhaseStep(payloads: seq<TracerPayload>, l: Limiter, now: int, candidates: seq<Candidate>, c: Option<Candidate>)
    requires AllStampable(payloads, KeptOf(l, now, candidates))
    requires c.Some? ==> Stampable(payloads, Kept(c.value.at, c.value.root, 0.0))
    ensures c.Some? ==>
      var before := AfterCalls(l, CallsAt(now, candidates));
      var d := Decision(before, now, c.value.trace);
      var larger := candidates + [c.value];
      && AfterCalls(l, CallsAt(now, larger)) == AfterSample(before, now, c.value.trace)
      && AllStampable(payloads, KeptOf(l, now, larger))
      && WriteBack(payloads, KeptOf(l, now, larger)) ==
          if d.Keep? then Stamp(WriteBack(payloads, KeptOf(l, now, candidates)), Kept(c.value.at, c.value.root, d.errorsSr))
          else WriteBack(payloads, KeptOf(l, now, candidates))
  {
    hide Decision, AfterSample, AfterCalls, Stamp;
    if c.Some? {
      CallsAppend(now, candidates, c.value);
      AfterOneMoreCall(l, CallsAt(now, candidates), Call(now, c.value.trace));
      KeptAppend(l, now, candidates, c.value);
      var d := Decision(AfterCalls(l, CallsAt(now, candidates)), now, c.value.trace);
      if d.Keep? {
        WriteBackAppend(payloads, KeptOf(l, now, candidates), Kept(c.value.at, c.value.root, d.errorsSr));
      }
    }
  }

  // ----- What may change -----

  /** The span reports the rate, and nothing else about it differs. */
  ghost predicate Marked(before: Span, after: Span, errorsSr: real) {
    && after.traceId == before.traceId && after.service == before.service && after.name == before.name
    && after.resource == before.resource && after.error == before.error && after.meta == before.meta
    && Lookup(after.metrics, "_dd.errors_sr") == Some(errorsSr)
    && forall key | key != "_dd.errors_sr" :: Lookup(after.metrics, key) == Lookup(before.metrics, key)
  }

  /** The root is marked, and every other span, the priority and the tags are as they were. */
  ghost predicate RootMarked(before: Chunk, after: Chunk, root: nat, errorsSr: real) {
    && root < |before.spans| == |after.spans|
    && after.priority == before.priority && after.tags == before.tags
    && Marked(before.spans[root], after.spans[root], errorsSr)
    && forall i | 0 <= i < |before.spans| && i != root :: after.spans[i] == before.spans[i]
  }

  lemma StampMarks(chunk: Chunk, root: nat, errorsSr: real)
    requires root < |chunk.spans|
    ensures RootMarked(chunk, StampChunk(chunk, root, errorsSr), root, errorsSr)
  {
  }

  /** What becomes of a chunk: marked when it is a candidate that the sampler keeps, and untouched otherwise. */
  ghost predicate Decided(before: Chunk, after: Chunk, c: Option<Candidate>, l: Limiter, now: int) {
    if c.Some? && Decision(l, now, c.value.trace).Keep?
    then RootMarked(before, after, c.value.root, Decision(l, now, c.value.trace).errorsSr)
    else after == before
  }

  /** The same said of the chunk itself: qualified chunks are decided, by the trace they amount to. */
  ghost predicate RescuedOrNot(before: Chunk, after: Chunk, payloadEnv: Bytes, config: Config, l: Limiter, now: int) {
    var root := RescueRoot(before, config);
    if root.None? then after == before else
      var d := Decision(l, now, TraceOf(payloadEnv, before, root.value, config));
      if d.Keep? then RootMarked(before, after, root.value, d.errorsSr) else after == before
  }

  lemma DecidedIsRescuedOrNot(payloads: seq<TracerPayload>, p: Position, after: Chunk, config: Config, l: Limiter, now: int)
    requires InRange(payloads, p)
    requires Decided(payloads[p.0].chunks[p.1], after, CandidateAt(payloads, p, config), l, now)
    ensures RescuedOrNot(payloads[p.0].chunks[p.1], after, payloads[p.0].env, config, l, now)
  {
    hide RescueRoot, TraceOf, Decision, RootMarked;
  }

  /** One more chunk visited: it is decided, and the others stay. */
  lemma PassStep(payloads: seq<TracerPayload>, l: Limiter, now: int, positions: seq<Position>, config: Config, q: Position)
    requires AllInRange(payloads, positions) && positions != [] && InRange(payloads, q)
    ensures var front, p := positions[..|positions| - 1], positions[|positions| - 1];
      var before, after := OnePass(payloads, l, now, front, config), OnePass(payloads, l, now, positions, config).payloads;
      && InRange(before.payloads, q) && InRange(after, q)
      && (if q == p
          then Decided(before.payloads[q.0].chunks[q.1], after[q.0].chunks[q.1], CandidateAt(before.payloads, q, config), before.limiter, now)
          else after[q.0].chunks[q.1] == before.payloads[q.0].chunks[q.1])
  {
    hide Decision, AfterSample, CandidateAt, StampChunk, RootMarked;
    var front, p := positions[..|positions| - 1], positions[|positions| - 1];
    var before := OnePass(payloads, l, now, front, config);
    assert InRange(before.payloads, p);
    CandidateIsStampable(before.payloads, p, config);
    var c := CandidateAt(before.payloads, p, config);
    if c.Some? && Decision(before.limiter, now, c.value.trace).Keep? {
      StampMarks(before.payloads[p.0].chunks[p.1], c.value.root, Decision(before.limiter, now, c.value.trace).errorsSr);
    }
  }

  /** Each chunk is decided with the sampler as the chunks before it left it. */
  lemma {:induction false} EveryChunkIsDecided(payloads: seq<TracerPayload>, l: Limiter, now: int, positions: seq<Position>, config: Config, k: nat)
    requires AllInRange(payloads, positions) && Distinct(positions) && k < |positions|
    ensures var q, after := positions[k], OnePass(payloads, l, now, positions, config).payloads;
      && AllInRange(payloads, positions[..k]) && InRange(payloads, q) && InRange(after, q)
      && Decided(payloads[q.0].chunks[q.1], after[q.0].chunks[q.1], CandidateAt(payloads, q, config),
                 OnePass(payloads, l, now, positions[..k], config).limiter, now)
  {
    hide Decided, CandidateAt, OnePass, AllInRange, Distinct, InRange, SameShape;
    var n := |positions| - 1;
    var front, q := positions[..n], positions[k];
    LastPosition(payloads, positions);
    OtherPosition(payloads, positions, k);
    PassStep(payloads, l, now, positions, config, q);
    if k == n {
      PassLeavesOthers(payloads, l, now, front, config, q);
      SameCandidate(payloads, OnePass(payloads, l, now, front, config).payloads, q, config);
    } else {
      EveryChunkIsDecided(payloads, l, now, front, config, k);
      assert front[..k] == positions[..k] && front[k] == q;
    }
  }

  lemma OtherPosition(payloads: seq<TracerPayload>, positions: seq<Position>, k: nat)
    requires AllInRange(payloads, positions) && Distinct(positions) && k < |positions|
    ensures InRange(payloads, positions[k]) && AllInRange(payloads, positions[..k])
    ensures k < |positions| - 1 ==> positions[k] != positions[|positions| - 1]
  {
  }

  ghost predicate OnlyStamped(before: Chunk, after: Chunk, config: Config) {
    after == before ||
    exists errorsSr :: RescueRoot(before, config).Some? && RootMarked(before, after, RescueRoot(before, config).value, errorsSr)
  }

  /** A chunk is untouched, or gained `_dd.errors_sr` on the root of an eligible, errored chunk. */
  lemma OnlyRootsAreStamped(payloads: seq<TracerPayload>, l: Limiter, now: int, positions: seq<Position>, config: Config, q: Position)
    requires AllInRange(payloads, positions) && Distinct(positions) && InRange(payloads, q)
    ensures var after := OnePass(payloads, l, now, positions, config).payloads;
      && after[q.0].env == payloads[q.0].env
      && OnlyStamped(payloads[q.0].chunks[q.1], after[q.0].chunks[q.1], config)
  {
    hide Decision, AfterSample, RescueRoot, TraceOf, RootMarked, OnePass;
    KeepsEnv(payloads, l, now, positions, config, q);
    if q in positions {
      var k :| 0 <= k < |positions| && positions[k] == q;
      EveryChunkIsDecided(payloads, l, now, positions, config, k);
    } else {
      PassLeavesOthers(payloads, l, now, positions, config, q);
    }
  }

  lemma {:induction false} KeepsEnv(payloads: seq<TracerPayload>, l: Limiter, now: int, positions: seq<Position>, config: Config, q: Position)
    requires AllInRange(payloads, positions) && InRange(payloads, q)
    ensures InRange(OnePass(payloads, l, now, positions, config).payloads, q)
    ensures OnePass(payloads, l, now, positions, config).payloads[q.0].env == payloads[q.0].env
  {
    hide Decision, AfterSample, CandidateAt, StampChunk;
    if positions != [] {
      var before := OnePass(payloads, l, now, positions[..|positions| - 1], config);
      KeepsEnv(payloads, l, now, positions[..|positions| - 1], config, q);
      CandidateIsStampable(before.payloads, positions[|positions| - 1], config);
    }
  }

  // ----- The order of the chunks -----

  function PositionsFrom(payloads: seq<TracerPayload>, i: nat, j: nat): seq<Position>
    decreases |payloads| - i, if i < |payloads| then |payloads[i].chunks| - j else 0
  {
    if i >= |payloads| then []
    else if j >= |payloads[i].chunks| then PositionsFrom(payloads, i + 1, 0)
    else [(i, j)] + PositionsFrom(payloads, i, j + 1)
  }

  predicate Before(p: Position, q: Position) {
    p.0 < q.0 || (p.0 == q.0 && p.1 < q.1)
  }

  /** All chunks, each once, in order. */
  lemma {:induction false} PositionsAreInOrder(payloads: seq<TracerPayload>, i: nat, j: nat)
    ensures var ps := PositionsFrom(payloads, i, j);
      && AllInRange(payloads, ps)
      && (forall k | 0 <= k < |ps| :: !Before(ps[k], (i, j)))
      && (forall k, m | 0 <= k < m < |ps| :: Before(ps[k], ps[m]))
      && (forall p: Position | InRange(payloads, p) && !Before(p, (i, j)) :: p in ps)
    decreases |payloads| - i, if i < |payloads| then |payloads[i].chunks| - j else 0
  {
    if i < |payloads| {
      if j >= |payloads[i].chunks| {
        PositionsAreInOrder(payloads, i + 1, 0);
      } else {
        PositionsAreInOrder(payloads, i, j + 1);
        var rest := PositionsFrom(payloads, i, j + 1);
        var ps := [(i, j)] + rest;
        forall k, m | 0 <= k < m < |ps| ensures Before(ps[k], ps[m]) {
          assert ps[m] == rest[m - 1] && !Before(rest[m - 1], (i, j + 1));
        }
        forall p: Position | InRange(payloads, p) && !Before(p, (i, j)) ensures p in ps {
          assert p == (i, j) || p in rest;
        }
      }
    }
  }

  lemma AllPositions(payloads: seq<TracerPayload>)
    ensures AllInRange(payloads, PositionsFrom(payloads, 0, 0)) && Distinct(PositionsFrom(payloads, 0, 0))
  {
    PositionsAreInOrder(payloads, 0, 0);
  }
}
