/** Garbage collection against live writers. Gateways mint ids, write blobs, commit metadata and
    only then resolve (crates/epoch-gateway/src/object.rs); heartbeats carry `W(t)` to PD; a GC
    round reads the live-token table, then exports the keep-set, and tombstones what neither
    protects (crates/epoch-worker/src/gc/mod.rs, crates/epoch-node/src/roles/gc.rs).
    Every step is one lock region or one applied metadata command; steps of all gateways
    interleave freely. */
module Collector {
  import opened Writer

  datatype System = System(
    sessions: map<nat, Session>,   // one per gateway
    nextToken: nat,                // the next token PD hands out; they ascend from 1
    dead: set<nat>,                // tokens PD has retired
    pending: set<nat>,             // registered, not yet installed or dropped by the asking task
    used: set<nat>,                // tokens some session has installed
    fenced: set<nat>,              // tokens fenced or replaced
    minted: set<BlobId>,
    open: set<BlobId>,             // the PUT may still commit metadata naming the blob
    committed: set<BlobId>,        // the metadata commit has been applied
    refs: set<BlobId>,             // named by a committed head, segment or part
    reports: set<(nat, int)>)      // every (token, W) a heartbeat sampled

  datatype Step =
    | Register(token: nat)
    | Retire(token: nat)
    | Establish(gateway: nat, token: nat)
    | Mint(gateway: nat)
    | InstallSpent(gateway: nat, token: nat)
    | Fence(gateway: nat)
    | InstallForced(gateway: nat, token: nat)
    | Commit(ids: set<BlobId>)
    | GiveUp(ids: set<BlobId>)
    | Resolve(gateway: nat, id: BlobId)
    | Unreference(ids: set<BlobId>)
    | Heartbeat(gateway: nat)

  const EMPTY: System := System(map[], 1, {}, {}, {}, {}, {}, {}, {}, {}, {})

  /** The counter is a `u32` that is never advanced past its last value. */
  const TOKEN_LIMIT: nat := 0xFFFF_FFFF

  /** Tokens PD may still hand out. */
  predicate Unissued(s: System, t: nat) {
    s.nextToken <= t < TOKEN_LIMIT
  }

  /** Tokens PD records as `Live`. */
  predicate Live(s: System, t: nat) {
    1 <= t < s.nextToken && t !in s.dead
  }

  /** When a step can happen. A registration that fails is no step at all. PD retires a token when
      its gateway's heartbeat has lapsed, whatever that gateway still has under way. */
  predicate Enabled(s: System, step: Step) {
    match step
    case Register(t) => t == s.nextToken < TOKEN_LIMIT
    case Retire(t) => 1 <= t < s.nextToken
    case Establish(g, t) => g !in s.sessions && t in s.pending
    case Mint(g) => g in s.sessions && !s.sessions[g].exhausted
    case InstallSpent(g, t) => g in s.sessions && t in s.pending
    case Fence(g) => g in s.sessions
    case InstallForced(g, t) => g in s.sessions && t in s.pending
    case Commit(ids) => ids <= s.open
    case GiveUp(ids) => ids <= s.open
    case Resolve(g, id) => g in s.sessions && id in s.committed
    case Unreference(ids) => true
    case Heartbeat(g) => g in s.sessions
  }

  function Install(s: System, g: nat, t: nat): System {
    s.(sessions := s.sessions[g := Fresh(t)],
       pending := s.pending - {t},
       used := s.used + {t},
       fenced := if g in s.sessions then s.fenced + {s.sessions[g].token} else s.fenced)
  }

  function Apply(s: System, step: Step): System
    requires Enabled(s, step)
  {
    match step
    case Register(t) => s.(nextToken := t + 1, pending := s.pending + {t})
    case Retire(t) => s.(dead := s.dead + {t})
    case Establish(g, t) => Install(s, g, t)
    case Mint(g) =>
      var id := BlobId(s.sessions[g].token, s.sessions[g].nextSeq);
      s.(sessions := s.sessions[g := Minted(s.sessions[g])], minted := s.minted + {id}, open := s.open + {id})
    case InstallSpent(g, t) =>
      if s.sessions[g].exhausted then Install(s, g, t) else s.(pending := s.pending - {t})
    case Fence(g) =>
      s.(sessions := s.sessions[g := Fenced(s.sessions[g])], fenced := s.fenced + {s.sessions[g].token})
    case InstallForced(g, t) => Install(s, g, t)
    case Commit(ids) => s.(open := s.open - ids, committed := s.committed + ids, refs := s.refs + ids)
    case GiveUp(ids) => s.(open := s.open - ids)
    case Resolve(g, id) => s.(sessions := s.sessions[g := Resolved(s.sessions[g], id)])
    case Unreference(ids) => s.(refs := s.refs - ids)
    case Heartbeat(g) => s.(reports := s.reports + {(s.sessions[g].token, Watermark(s.sessions[g]))})
  }

  // ---------------------------------------------------------------- invariants

  /** Tokens: installed at most once, by one gateway, and never after being fenced. */
  ghost predicate TokensOk(s: System) {
    && 1 <= s.nextToken && (forall t | t in s.used || t in s.pending :: 1 <= t < s.nextToken)
    && s.used !! s.pending && s.fenced <= s.used
    && (forall g | g in s.sessions :: s.sessions[g].token in s.used)
    && (forall g, h | g in s.sessions && h in s.sessions && s.sessions[g].token == s.sessions[h].token :: g == h)
    && (forall g | g in s.sessions && s.sessions[g].token in s.fenced :: s.sessions[g].exhausted)
  }

  /** What has been minted from the token a session holds now. */
  ghost predicate SessionOk(s: System, c: Session) {
    && c.nextSeq <= MAX_SEQ
    && (forall n | 0 <= n < c.nextSeq :: BlobId(c.token, n) in s.minted)
    && (forall id | id in s.minted && id.token == c.token ::
          id.seqno < c.nextSeq || (c.exhausted && id.seqno == c.nextSeq == MAX_SEQ))
    && (forall id | id in s.open && id.token == c.token :: id.seqno in c.inFlight)
    && (forall n | n in c.inFlight :: n <= c.nextSeq)
  }

  ghost predicate BlobsOk(s: System) {
    && (forall id | id in s.minted :: id.token in s.used && id.seqno <= MAX_SEQ)
    && s.open <= s.minted && s.committed <= s.minted && s.open !! s.committed
    && s.refs <= s.committed
  }

  /** Everything at or below a reported watermark was minted and can no longer be committed. */
  ghost predicate Settled(s: System, t: nat, w: int) {
    forall n | 0 <= n <= w :: BlobId(t, n) in s.minted && BlobId(t, n) !in s.open
  }

  ghost predicate Invariant(s: System) {
    && TokensOk(s)
    && BlobsOk(s)
    && (forall g | g in s.sessions :: SessionOk(s, s.sessions[g]))
    && (forall r | r in s.reports :: Settled(s, r.0, r.1))
  }

  /** What no step can undo: a minted blob whose PUT is over never reopens, and references only
      ever come from open PUTs. */
  ghost predicate Forward(s: System, t: System) {
    && s.minted <= t.minted
    && (forall id | id in s.minted && id !in s.open :: id !in t.open)
    && (forall id | id in s.minted && id !in s.open && id !in s.refs :: id !in t.refs)
    && s.reports <= t.reports
    && s.used <= t.used && s.fenced <= t.fenced
  }

  lemma InstallKeepsTokens(s: System, g: nat, t: nat)
    requires Invariant(s) && t in s.pending
    ensures TokensOk(Install(s, g, t)) && SessionOk(s, Fresh(t))
  {
  }

  lemma InstallKeepsInvariant(s: System, g: nat, t: nat)
    requires Invariant(s) && t in s.pending
    ensures Invariant(Install(s, g, t)) && Forward(s, Install(s, g, t))
  {
    hide TokensOk;
    InstallKeepsTokens(s, g, t);
    var s' := Install(s, g, t);
    forall h | h in s'.sessions ensures SessionOk(s', s'.sessions[h]) {
      if h == g { assert SessionOk(s, Fresh(t)); }
    }
    forall r | r in s'.reports ensures Settled(s', r.0, r.1) { assert Settled(s, r.0, r.1); }
    UsedGrows(s, t);
  }

  lemma UsedGrows(s: System, t: nat)
    requires Invariant(s)
    ensures forall id | id in s.minted :: id.token in s.used + {t} && id.seqno <= MAX_SEQ
  {
  }

  /** The id a mint hands out is new. */
  lemma MintIsFresh(s: System, g: nat)
    requires Invariant(s) && g in s.sessions && !s.sessions[g].exhausted
    ensures BlobId(s.sessions[g].token, s.sessions[g].nextSeq) !in s.minted
    ensures s.sessions[g].token !in s.fenced
  {
    assert SessionOk(s, s.sessions[g]);
  }

  lemma StepKeepsTokens(s: System, step: Step)
    requires Invariant(s) && Enabled(s, step)
    ensures TokensOk(Apply(s, step))
  {
    hide SessionOk, Settled, BlobsOk, Watermark;
    match step
    case Establish(g, t) => InstallKeepsTokens(s, g, t);
    case InstallSpent(g, t) => InstallKeepsTokens(s, g, t);
    case InstallForced(g, t) => InstallKeepsTokens(s, g, t);
    case Register(t) => assert t !in s.used;
    case _ =>
  }

  lemma MintKeepsSession(s: System, g: nat, h: nat)
    requires Invariant(s) && Enabled(s, Mint(g)) && h in s.sessions
    ensures SessionOk(Apply(s, Mint(g)), Apply(s, Mint(g)).sessions[h]) && s.sessions[h].nextSeq <= MAX_SEQ
  {
    hide Settled, BlobsOk;
    assert SessionOk(s, s.sessions[h]);
  }

  lemma MintKeepsInvariant(s: System, g: nat)
    requires Invariant(s) && Enabled(s, Mint(g))
    ensures Invariant(Apply(s, Mint(g))) && Forward(s, Apply(s, Mint(g)))
  {
    hide SessionOk, Watermark, Install;
    MintIsFresh(s, g);
    StepKeepsTokens(s, Mint(g));
    var s' := Apply(s, Mint(g));
    forall h | h in s'.sessions ensures SessionOk(s', s'.sessions[h]) { MintKeepsSession(s, g, h); }
    assert s.sessions[g].nextSeq <= MAX_SEQ by { MintKeepsSession(s, g, g); }
    forall r | r in s'.reports ensures Settled(s', r.0, r.1) { assert Settled(s, r.0, r.1); }
  }

  lemma WatermarkIsSettled(s: System, g: nat)
    requires Invariant(s) && g in s.sessions
    ensures Settled(s, s.sessions[g].token, Watermark(s.sessions[g]))
    ensures Watermark(s.sessions[g]) < s.sessions[g].nextSeq
  {
    var c := s.sessions[g];
    assert SessionOk(s, c);
    forall n | 0 <= n <= Watermark(c) ensures BlobId(c.token, n) in s.minted && BlobId(c.token, n) !in s.open {
      if c.inFlight != {} { assert IsLeast(Least(c.inFlight), c.inFlight); }
    }
  }

  lemma QuietStepKeepsSession(s: System, step: Step, h: nat)
    requires Invariant(s) && Enabled(s, step) && h in s.sessions
    requires !step.Mint? && !step.Establish? && !step.InstallSpent? && !step.InstallForced?
    ensures SessionOk(Apply(s, step), Apply(s, step).sessions[h])
  {
    hide TokensOk, Watermark, Install, Minted, Settled;
    assert SessionOk(s, s.sessions[h]);
  }

  /** Steps other than minting and installing only shrink what the sessions must protect. */
  lemma QuietStepKeepsInvariant(s: System, step: Step)
    requires Invariant(s) && Enabled(s, step)
    requires !step.Mint? && !step.Establish? && !step.InstallSpent? && !step.InstallForced?
    ensures Invariant(Apply(s, step)) && Forward(s, Apply(s, step))
  {
    hide TokensOk, Watermark, Install, Minted, SessionOk;
    StepKeepsTokens(s, step);
    var s' := Apply(s, step);
    forall h | h in s'.sessions ensures SessionOk(s', s'.sessions[h]) { QuietStepKeepsSession(s, step, h); }
    forall r | r in s'.reports ensures Settled(s', r.0, r.1) {
      if r in s.reports {
        assert Settled(s, r.0, r.1);
      } else {
        WatermarkIsSettled(s, step.gateway);
      }
    }
  }

  /** Every step keeps the invariant and goes forward. */
  lemma StepKeepsInvariant(s: System, step: Step)
    requires Invariant(s) && Enabled(s, step)
    ensures Invariant(Apply(s, step)) && Forward(s, Apply(s, step))
  {
    hide Invariant, Forward;
    match step
    case Mint(g) => MintKeepsInvariant(s, g);
    case Establish(g, t) => InstallKeepsInvariant(s, g, t);
    case InstallForced(g, t) => InstallKeepsInvariant(s, g, t);
    case InstallSpent(g, t) =>
      if s.sessions[g].exhausted { InstallKeepsInvariant(s, g, t); } else { DropKeepsInvariant(s, t); }
    case _ => QuietStepKeepsInvariant(s, step);
  }

  lemma DropKeepsInvariant(s: System, t: nat)
    requires Invariant(s)
    ensures Invariant(s.(pending := s.pending - {t})) && Forward(s, s.(pending := s.pending - {t}))
  {
    var s' := s.(pending := s.pending - {t});
    forall h | h in s'.sessions ensures SessionOk(s', s'.sessions[h]) { assert SessionOk(s, s.sessions[h]); }
    forall r | r in s'.reports ensures Settled(s', r.0, r.1) { assert Settled(s, r.0, r.1); }
  }

  // ---------------------------------------------------------------- runs

  /** A stretch of history: each state follows from the one before by its step. */
  ghost predicate Chain(states: seq<System>, steps: seq<Step>) {
    && |states| == |steps| + 1
    && forall i | 0 <= i < |steps| :: Enabled(states[i], steps[i]) && states[i + 1] == Apply(states[i], steps[i])
  }

  /** A run is a history from the beginning. */
  ghost predicate Run(states: seq<System>, steps: seq<Step>) {
    Chain(states, steps) && states[0] == EMPTY
  }

  lemma {:induction false} ChainKeepsInvariant(states: seq<System>, steps: seq<Step>, i: nat)
    requires Chain(states, steps) && Invariant(states[0]) && i < |states|
    ensures Invariant(states[i])
  {
    hide Enabled, Apply, Invariant;
    if i > 0 {
      ChainKeepsInvariant(states, steps, i - 1);
      StepKeepsInvariant(states[i - 1], steps[i - 1]);
    }
  }

  lemma EmptyIsInvariant()
    ensures Invariant(EMPTY)
  {
  }

  lemma RunKeepsInvariant(states: seq<System>, steps: seq<Step>, i: nat)
    requires Run(states, steps) && i < |states|
    ensures Invariant(states[i])
  {
    hide Chain, Invariant;
    EmptyIsInvariant();
    ChainKeepsInvariant(states, steps, i);
  }

  lemma {:induction false} ChainGoesForward(states: seq<System>, steps: seq<Step>, i: nat, j: nat)
    requires Chain(states, steps) && Invariant(states[0]) && i <= j < |states|
    ensures Forward(states[i], states[j])
    decreases j
  {
    hide Enabled, Apply, Invariant;
    if i < j {
      ChainGoesForward(states, steps, i, j - 1);
      ChainKeepsInvariant(states, steps, j - 1);
      StepKeepsInvariant(states[j - 1], steps[j - 1]);
    }
  }

  lemma RunGoesForward(states: seq<System>, steps: seq<Step>, i: nat, j: nat)
    requires Run(states, steps) && i <= j < |states|
    ensures Forward(states[i], states[j])
  {
    hide Chain, Forward;
    RunKeepsInvariant(states, steps, 0);
    ChainGoesForward(states, steps, i, j);
  }

  /** Blob ids never repeat, and none is minted from a fenced token, in any run. */
  lemma MintedIdsAreUnique(states: seq<System>, steps: seq<Step>, i: nat, j: nat)
    requires Run(states, steps) && i < j < |steps| && steps[i].Mint? && steps[j].Mint?
    ensures var a, b := states[i].sessions[steps[i].gateway], states[j].sessions[steps[j].gateway];
            && BlobId(a.token, a.nextSeq) != BlobId(b.token, b.nextSeq)
            && b.token !in states[j].fenced
  {
    RunKeepsInvariant(states, steps, j);
    RunGoesForward(states, steps, i + 1, j);
    MintIsFresh(states[j], steps[j].gateway);
  }

  /** A reported watermark stays true: in every later state each seq at or below it has been
      minted, is not in flight, and is never minted again. */
  lemma WatermarkIsStable(states: seq<System>, steps: seq<Step>, i: nat, j: nat, t: nat, w: int)
    requires Run(states, steps) && i <= j < |states| && (t, w) in states[i].reports
    ensures Settled(states[j], t, w)
    ensures j < |steps| && steps[j].Mint? && states[j].sessions[steps[j].gateway].token == t ==>
              states[j].sessions[steps[j].gateway].nextSeq > w
  {
    RunGoesForward(states, steps, i, j);
    RunKeepsInvariant(states, steps, j);
    assert Settled(states[j], t, w);
    if j < |steps| && steps[j].Mint? {
      MintIsFresh(states[j], steps[j].gateway);
    }
  }

  lemma WatermarkRises(s: System, step: Step, g: nat)
    requires Invariant(s) && Enabled(s, step) && g in s.sessions
    requires Apply(s, step).sessions[g].token == s.sessions[g].token
    ensures Watermark(s.sessions[g]) <= Watermark(Apply(s, step).sessions[g])
  {
    var c, c' := s.sessions[g], Apply(s, step).sessions[g];
    assert SessionOk(s, c);
    InstalledTokenIsNew(s, step, g);
    if c.inFlight != {} { assert IsLeast(Least(c.inFlight), c.inFlight); }
    if c'.inFlight != {} { assert IsLeast(Least(c'.inFlight), c'.inFlight); }
  }

  lemma InstalledTokenIsNew(s: System, step: Step, g: nat)
    requires Invariant(s) && Enabled(s, step) && g in s.sessions
    requires Apply(s, step).sessions[g].token == s.sessions[g].token
    ensures var c, c' := s.sessions[g], Apply(s, step).sessions[g];
            c' == c || c' == Minted(c) || c' == Fenced(c) || (step.Resolve? && c' == Resolved(c, step.id))
  {
  }

  /** A token once installed is not installed again, so its holder held it before the step. */
  lemma HolderIsSteady(s: System, step: Step, g: nat)
    requires Invariant(s) && Enabled(s, step) && g in Apply(s, step).sessions
    requires Apply(s, step).sessions[g].token in s.used
    ensures g in s.sessions && s.sessions[g].token == Apply(s, step).sessions[g].token
  {
  }

  /** Between any two moments at which a gateway holds the same token, its watermark has not
      fallen, whatever all gateways did in between. */
  lemma {:induction false} WatermarkIsMonotone(states: seq<System>, steps: seq<Step>, i: nat, j: nat, g: nat)
    requires Run(states, steps) && i <= j < |states|
    requires g in states[i].sessions && g in states[j].sessions
    requires states[i].sessions[g].token == states[j].sessions[g].token
    ensures Watermark(states[i].sessions[g]) <= Watermark(states[j].sessions[g])
    decreases j
  {
    hide Enabled, Apply, Watermark;
    if i < j {
      RunKeepsInvariant(states, steps, i);
      RunKeepsInvariant(states, steps, j - 1);
      RunGoesForward(states, steps, i, j - 1);
      HolderIsSteady(states[j - 1], steps[j - 1], g);
      WatermarkIsMonotone(states, steps, i, j - 1, g);
      WatermarkRises(states[j - 1], steps[j - 1], g);
    }
  }

  // ---------------------------------------------------------------- the GC rule

  /** The live-token table PD answers with: every `Live` token and no other, each with a watermark
      that was reported or with the default. */
  ghost predicate LiveTable(s: System, live: map<nat, int>) {
    && (forall t :: t in live <==> Live(s, t))
    && (forall t | t in live :: live[t] == -1 || (t, live[t]) in s.reports)
  }

  /** `is_orphan`: unreferenced, and either at or below its token's watermark or of a token
      that is not in the table. */
  predicate IsOrphan(id: BlobId, referenced: set<BlobId>, live: map<nat, int>) {
    id !in referenced && (id.token in live ==> id.seqno <= live[id.token])
  }

  /** GC never reclaims live data of a token in the table: with the table read at `i` and the
      keep-set exported at `j`, an orphan is referenced at no later time. */
  lemma GcSparesLiveWriters(states: seq<System>, steps: seq<Step>, i: nat, j: nat, k: nat,
                            live: map<nat, int>, id: BlobId)
    requires Run(states, steps) && i <= j <= k < |states|
    requires LiveTable(states[i], live) && id.token in live && IsOrphan(id, states[j].refs, live)
    ensures id !in states[j].open && id !in states[k].refs
  {
    hide Run, Invariant, Enabled, Apply;
    assert id.seqno <= live[id.token] && 0 <= id.seqno;
    WatermarkIsStable(states, steps, i, j, id.token, live[id.token]);
    RunGoesForward(states, steps, j, k);
  }

  // ---------------------------------------------------------------- tokens that are not in the table

  /** Nothing can come from this token any more: PD will not hand it out, no task holds it
      registered and not installed, no session mints from it, and none of its PUTs is under way. */
  ghost predicate Over(s: System, t: nat) {
    && !Unissued(s, t)
    && t !in s.pending
    && (forall g | g in s.sessions && s.sessions[g].token == t :: s.sessions[g].exhausted)
    && (forall id | id in s.open :: id.token != t)
  }

  lemma StepKeepsOver(s: System, step: Step, t: nat)
    requires Invariant(s) && Enabled(s, step) && Over(s, t)
    ensures Over(Apply(s, step), t)
  {
  }

  lemma {:induction false} ChainKeepsOver(states: seq<System>, steps: seq<Step>, i: nat, t: nat)
    requires Chain(states, steps) && Invariant(states[0]) && Over(states[0], t) && i < |states|
    ensures Over(states[i], t)
  {
    hide Enabled, Apply, Invariant, Over;
    if i > 0 {
      ChainKeepsOver(states, steps, i - 1, t);
      ChainKeepsInvariant(states, steps, i - 1);
      StepKeepsOver(states[i - 1], steps[i - 1], t);
    }
  }

  /** In a history from `s` the keep-set exported at `j` misses a blob of `t` that is live at `k`. */
  ghost predicate Missed(s: System, t: nat, states: seq<System>, steps: seq<Step>, j: nat, k: nat, id: BlobId) {
    && Chain(states, steps) && states[0] == s && j <= k < |states|
    && id.token == t && id in states[j].minted && id !in states[j].refs && id in states[k].refs
  }

  /** With the table read in `s`, no later round loses live data by taking every unreferenced
      blob of `t` without asking for a watermark. */
  ghost predicate SafeToIgnore(s: System, t: nat) {
    !exists states, steps, j: nat, k: nat, id :: Missed(s, t, states, steps, j, k, id)
  }

  lemma OverIsSafe(s: System, t: nat)
    requires Invariant(s) && Over(s, t)
    ensures SafeToIgnore(s, t)
  {
    forall states, steps, j: nat, k: nat, id ensures !Missed(s, t, states, steps, j, k, id) {
      if Missed(s, t, states, steps, j, k, id) { OverIsNeverMissed(s, t, states, steps, j, k, id); }
    }
  }

  lemma OverIsNeverMissed(s: System, t: nat, states: seq<System>, steps: seq<Step>, j: nat, k: nat, id: BlobId)
    requires Invariant(s) && Over(s, t)
    ensures !Missed(s, t, states, steps, j, k, id)
  {
    hide Enabled, Apply, Invariant;
    if Missed(s, t, states, steps, j, k, id) {
      ChainKeepsOver(states, steps, j, t);
      ChainKeepsInvariant(states, steps, j);
      SuffixIsChain(states, steps, j);
      ChainGoesForward(states[j..], steps[j..], 0, k - j);
    }
  }

  lemma SuffixIsChain(states: seq<System>, steps: seq<Step>, j: nat)
    requires Chain(states, steps) && j < |states|
    ensures Chain(states[j..], steps[j..])
  {
    hide Enabled, Apply;
  }

  lemma OpenIsUnsafe(s: System, id: BlobId)
    requires Invariant(s) && id in s.open
    ensures !SafeToIgnore(s, id.token)
  {
    var step := Commit({id});
    assert Missed(s, id.token, [s, Apply(s, step)], [step], 0, 1, id);
  }

  lemma LaterIsUnsafe(s: System, step: Step, t: nat)
    requires Enabled(s, step) && !SafeToIgnore(Apply(s, step), t)
    ensures !SafeToIgnore(s, t)
  {
    hide Enabled, Apply;
    var states: seq<System>, steps: seq<Step>, j: nat, k: nat, id :|
      Missed(Apply(s, step), t, states, steps, j, k, id);
    var states', steps' := [s] + states, [step] + steps;
    forall i | 0 <= i < |steps'| ensures
        Enabled(states'[i], steps'[i]) && states'[i + 1] == Apply(states'[i], steps'[i]) {
      if i > 0 { assert states'[i] == states[i - 1] && steps'[i] == steps[i - 1]; }
    }
    assert Missed(s, t, states', steps', j + 1, k + 1, id);
  }

  lemma MintingIsUnsafe(s: System, g: nat)
    requires Invariant(s) && Enabled(s, Mint(g))
    ensures !SafeToIgnore(s, s.sessions[g].token)
  {
    hide SafeToIgnore, Invariant, Forward;
    var step := Mint(g);
    StepKeepsInvariant(s, step);
    OpenIsUnsafe(Apply(s, step), BlobId(s.sessions[g].token, s.sessions[g].nextSeq));
    LaterIsUnsafe(s, step, s.sessions[g].token);
  }

  lemma {:induction false} SomeNotIn(taken: set<nat>) returns (n: nat)
    ensures forall m | m in taken :: m < n
    decreases taken
  {
    if taken == {} {
      n := 0;
    } else {
      var m :| m in taken;
      var rest := SomeNotIn(taken - {m});
      n := if m < rest then rest else m + 1;
      assert forall k | k in taken :: k == m || k in taken - {m};
    }
  }

  lemma PendingIsUnsafe(s: System, t: nat)
    requires Invariant(s) && t in s.pending
    ensures !SafeToIgnore(s, t)
  {
    hide SafeToIgnore, Invariant, Forward;
    var g := SomeNotIn(s.sessions.Keys);
    var step := Establish(g, t);
    StepKeepsInvariant(s, step);
    MintingIsUnsafe(Apply(s, step), g);
    LaterIsUnsafe(s, step, t);
  }

  lemma {:induction false} UnissuedIsUnsafe(s: System, t: nat)
    requires Invariant(s) && Unissued(s, t)
    ensures !SafeToIgnore(s, t)
    decreases t - s.nextToken
  {
    hide SafeToIgnore, Invariant, Forward;
    var step := Register(s.nextToken);
    StepKeepsInvariant(s, step);
    if t == s.nextToken { PendingIsUnsafe(Apply(s, step), t); } else { UnissuedIsUnsafe(Apply(s, step), t); }
    LaterIsUnsafe(s, step, t);
  }

  /** Exactly which tokens may be missing from a table: those that are over when it is read. */
  lemma SafeToIgnoreIffOver(s: System, t: nat)
    requires Invariant(s)
    ensures SafeToIgnore(s, t) <==> Over(s, t)
  {
    hide SafeToIgnore, Invariant;
    if Over(s, t) {
      OverIsSafe(s, t);
    } else if Unissued(s, t) {
      UnissuedIsUnsafe(s, t);
    } else if t in s.pending {
      PendingIsUnsafe(s, t);
    } else if id :| id in s.open && id.token == t {
      OpenIsUnsafe(s, id);
    } else {
      var g :| g in s.sessions && s.sessions[g].token == t && !s.sessions[g].exhausted;
      MintingIsUnsafe(s, g);
    }
  }

  /** A fenced token with no PUT under way is over: the check the design's grace period stands for. */
  lemma FencedAndDrainedIsOver(states: seq<System>, steps: seq<Step>, i: nat, t: nat)
    requires Run(states, steps) && i < |states|
    requires t in states[i].fenced && forall id | id in states[i].open :: id.token != t
    ensures Over(states[i], t) && SafeToIgnore(states[i], t)
  {
    hide Run;
    RunKeepsInvariant(states, steps, i);
    OverIsSafe(states[i], t);
  }

  /** A whole round: with the table read at `i` and the keep-set exported at `j`, no orphan of a
      token that is in the table or over is referenced at any later time. */
  lemma RoundTakesNothingLive(states: seq<System>, steps: seq<Step>, i: nat, j: nat, k: nat,
                              live: map<nat, int>, id: BlobId)
    requires Run(states, steps) && i <= j <= k < |states|
    requires LiveTable(states[i], live) && IsOrphan(id, states[j].refs, live) && id in states[j].minted
    requires id.token in live || Over(states[i], id.token)
    ensures id !in states[k].refs
  {
    hide Invariant, Enabled, Apply, Over, LiveTable;
    if id.token in live {
      GcSparesLiveWriters(states, steps, i, j, k, live, id);
    } else {
      RunKeepsInvariant(states, steps, i);
      SuffixIsChain(states, steps, i);
      OverIsNeverMissed(states[i], id.token, states[i..], steps[i..], j - i, k - i, id);
      assert states[i..][j - i] == states[j] && states[i..][k - i] == states[k];
    }
  }

  /** No table is enough by itself: until the counter is spent, the token PD hands out next is in
      none, and a round that ignores it can lose live data. */
  lemma NextTokenIsNeverSafe(states: seq<System>, steps: seq<Step>, i: nat, live: map<nat, int>)
    requires Run(states, steps) && i < |states| && LiveTable(states[i], live)
    requires states[i].nextToken < TOKEN_LIMIT
    ensures states[i].nextToken !in live && !SafeToIgnore(states[i], states[i].nextToken)
  {
    hide Run, SafeToIgnore;
    RunKeepsInvariant(states, steps, i);
    assert !Live(states[i], states[i].nextToken);
    UnissuedIsUnsafe(states[i], states[i].nextToken);
  }

  /** A round that tombstones a blob the next step references, its table being PD's own at `i`. */
  ghost predicate ReclaimsLiveData(states: seq<System>, steps: seq<Step>, live: map<nat, int>, i: nat, j: nat,
                                   id: BlobId)
  {
    && Run(states, steps) && i <= j < |steps|
    && LiveTable(states[i], live)
    && IsOrphan(id, states[j].refs, live)
    && id in states[j].minted && id in states[j + 1].refs
  }

  /** A token registered after the table was read is not in it, so its blobs in flight count as
      a dead writer's and are reclaimed. */
  lemma FreshTokenLosesLiveData()
    ensures exists states: seq<System>, steps, live, i: nat, j: nat, id ::
              ReclaimsLiveData(states, steps, live, i, j, id) && states[i].nextToken <= id.token
  {
    var id := BlobId(1, 0);
    var steps := [Register(1), Establish(7, 1), Mint(7), Commit({id})];
    var s1 := Apply(EMPTY, Register(1));
    var s2 := Apply(s1, Establish(7, 1));
    var s3 := Apply(s2, Mint(7));
    var s4 := Apply(s3, Commit({id}));
    assert ReclaimsLiveData([EMPTY, s1, s2, s3, s4], steps, map[], 0, 3, id);
  }

  /** A token PD retired after its gateway's heartbeat lapsed is not in the table either, although
      a PUT of that gateway is still under way: the blob is reclaimed and then referenced. */
  lemma RetiredTokenLosesLiveData()
    ensures exists states: seq<System>, steps, live, i: nat, j: nat, id ::
              ReclaimsLiveData(states, steps, live, i, j, id) && id.token in states[i].dead
  {
    var id := BlobId(1, 0);
    var steps := [Register(1), Establish(7, 1), Mint(7), Retire(1), Commit({id})];
    var s1 := Apply(EMPTY, Register(1));
    var s2 := Apply(s1, Establish(7, 1));
    var s3 := Apply(s2, Mint(7));
    var s4 := Apply(s3, Retire(1));
    var s5 := Apply(s4, Commit({id}));
    assert ReclaimsLiveData([EMPTY, s1, s2, s3, s4, s5], steps, map[], 4, 4, id);
  }
}
