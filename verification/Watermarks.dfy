/** What the watermark of a writer session means, read off the history: which ids a gateway has
    handed out, which of them it has resolved since, and which number it must report
    (crates/epoch-client/src/writer_token.rs). */
module Watermarks {
  import opened Collector
  import opened Writer

  /** Step `m` hands out `id` at gateway `g`. */
  ghost predicate MintsAt(states: seq<System>, steps: seq<Step>, m: nat, g: nat, id: BlobId)
    requires m < |steps| < |states|
  {
    && steps[m] == Mint(g) && g in states[m].sessions
    && id == BlobId(states[m].sessions[g].token, states[m].sessions[g].nextSeq)
  }

  /** By time `i`, `g` has handed out `id` and has not resolved it since. */
  ghost predicate Unresolved(states: seq<System>, steps: seq<Step>, i: nat, g: nat, id: BlobId)
    requires i <= |steps| < |states|
  {
    exists m: nat :: m < i && MintsAt(states, steps, m, g, id) && forall r | m < r < i :: steps[r] != Resolve(g, id)
  }

  /** By time `i`, `g` has handed out `id` and then resolved it. */
  ghost predicate Settles(states: seq<System>, steps: seq<Step>, i: nat, g: nat, id: BlobId)
    requires i <= |steps| < |states|
  {
    exists m: nat, r: nat :: m < r < i && MintsAt(states, steps, m, g, id) && steps[r] == Resolve(g, id)
  }

  lemma UnresolvedStep(states: seq<System>, steps: seq<Step>, i: nat, g: nat, id: BlobId)
    requires i < |steps| < |states|
    ensures Unresolved(states, steps, i + 1, g, id) <==>
              || MintsAt(states, steps, i, g, id)
              || (Unresolved(states, steps, i, g, id) && steps[i] != Resolve(g, id))
  {
    hide MintsAt;
    if Unresolved(states, steps, i + 1, g, id) && !MintsAt(states, steps, i, g, id) {
      var m: nat :| m < i + 1 && MintsAt(states, steps, m, g, id)
                    && forall r | m < r < i + 1 :: steps[r] != Resolve(g, id);
      assert m < i && steps[i] != Resolve(g, id);
    }
  }

  /** How a session comes out of a step: its gateway minted, resolved, or left both alone; or it
      is new, on a token that was only pending before. */
  lemma SessionAfter(s: System, step: Step, g: nat)
    requires Invariant(s) && Enabled(s, step) && g in Apply(s, step).sessions
    ensures var c' := Apply(s, step).sessions[g];
            if g in s.sessions && s.sessions[g].token == c'.token then
              var c := s.sessions[g];
              if step == Mint(g) then c'.inFlight == c.inFlight + {c.nextSeq}
              else if step.Resolve? && step.gateway == g && step.id.token == c.token then
                c'.inFlight == c.inFlight - {step.id.seqno}
              else c'.inFlight == c.inFlight
            else c'.inFlight == {} && c'.token in s.pending
  {
    hide SessionOk, BlobsOk, Settled;
  }

  /** Nothing has ever been handed out under a token that is still pending. */
  lemma PendingIsUnminted(states: seq<System>, steps: seq<Step>, i: nat, m: nat, g: nat, id: BlobId)
    requires Run(states, steps) && m < i < |states| && id.token in states[i].pending
    ensures id !in states[i].minted && !MintsAt(states, steps, m, g, id)
  {
    hide Enabled, Settled, SessionOk;
    RunKeepsInvariant(states, steps, i);
    if MintsAt(states, steps, m, g, id) {
      RunGoesForward(states, steps, m + 1, i);
    }
  }

  /** A session's in-flight set is exactly what its gateway has handed out under the session's token
      and has not resolved since, in whatever order the PUTs finished. */
  lemma {:induction false} InFlightIsUnresolved(states: seq<System>, steps: seq<Step>, i: nat, g: nat, n: nat)
    requires Run(states, steps) && i < |states| && g in states[i].sessions
    ensures var c := states[i].sessions[g];
            n in c.inFlight <==> Unresolved(states, steps, i, g, BlobId(c.token, n))
  {
    hide Enabled, Apply, Invariant, Unresolved;
    if i > 0 {
      var s, step, c' := states[i - 1], steps[i - 1], states[i].sessions[g];
      var id := BlobId(c'.token, n);
      RunKeepsInvariant(states, steps, i - 1);
      SessionAfter(s, step, g);
      if g in s.sessions && s.sessions[g].token == c'.token {
        InFlightIsUnresolved(states, steps, i - 1, g, n);
        UnresolvedStep(states, steps, i - 1, g, id);
      } else {
        InstalledIsUnminted(states, steps, i, g, id);
      }
    }
  }

  lemma InstalledIsUnminted(states: seq<System>, steps: seq<Step>, i: nat, g: nat, id: BlobId)
    requires Run(states, steps) && 0 < i < |states| && id.token in states[i - 1].pending
    ensures !Unresolved(states, steps, i, g, id)
  {
    hide Enabled, Apply, Invariant;
    forall m: nat | m < i ensures !MintsAt(states, steps, m, g, id) {
      if m < i - 1 {
        PendingIsUnminted(states, steps, i - 1, m, g, id);
      } else {
        PendingIsNotHeld(states, steps, m, g, id);
      }
    }
  }

  lemma PendingIsNotHeld(states: seq<System>, steps: seq<Step>, m: nat, g: nat, id: BlobId)
    requires Run(states, steps) && m < |steps| && id.token in states[m].pending
    ensures !MintsAt(states, steps, m, g, id)
  {
    RunKeepsInvariant(states, steps, m);
  }

  /** An id of the token a gateway holds was handed out by that gateway. */
  lemma {:induction false} MintedByHolder(states: seq<System>, steps: seq<Step>, i: nat, g: nat, id: BlobId)
    requires Run(states, steps) && i < |states| && g in states[i].sessions
    requires id in states[i].minted && id.token == states[i].sessions[g].token
    ensures exists m: nat :: m < i && MintsAt(states, steps, m, g, id)
  {
    hide Enabled, Invariant, SessionOk, Apply;
    var s, step := states[i - 1], steps[i - 1];
    RunKeepsInvariant(states, steps, i - 1);
    HeldBefore(s, step, g, id);
    if id in s.minted {
      MintedByHolder(states, steps, i - 1, g, id);
    } else {
      assert MintsAt(states, steps, i - 1, g, id);
    }
  }

  lemma HeldBefore(s: System, step: Step, g: nat, id: BlobId)
    requires Invariant(s) && Enabled(s, step) && g in Apply(s, step).sessions
    requires id in Apply(s, step).minted && id.token == Apply(s, step).sessions[g].token
    ensures g in s.sessions && s.sessions[g].token == id.token
    ensures id !in s.minted ==> step == Mint(g) && id == BlobId(s.sessions[g].token, s.sessions[g].nextSeq)
  {
    hide SessionOk, Settled;
  }

  /** The next number after the watermark is still unresolved or has not been handed out. */
  ghost predicate NextIsOpen(states: seq<System>, steps: seq<Step>, i: nat, g: nat)
    requires i <= |steps| < |states| && g in states[i].sessions
  {
    var c := states[i].sessions[g];
    var next := BlobId(c.token, Watermark(c) + 1);
    Unresolved(states, steps, i, g, next) || next !in states[i].minted
  }

  lemma BelowIsSettled(states: seq<System>, steps: seq<Step>, i: nat, g: nat, n: nat)
    requires Run(states, steps) && i < |states| && g in states[i].sessions && n <= Watermark(states[i].sessions[g])
    ensures Settles(states, steps, i, g, BlobId(states[i].sessions[g].token, n))
  {
    hide Enabled, Apply, Invariant, MintsAt, SessionOk;
    var c := states[i].sessions[g];
    var id := BlobId(c.token, n);
    RunKeepsInvariant(states, steps, i);
    WatermarkIsSettled(states[i], g);
    MintedByHolder(states, steps, i, g, id);
    InFlightIsUnresolved(states, steps, i, g, n);
    assert n !in c.inFlight;
    var m: nat :| m < i && MintsAt(states, steps, m, g, id);
    var r :| m < r < i && steps[r] == Resolve(g, id);
  }

  /** The watermark is the right number: everything at or below it has been handed out and then
      resolved, and the next number is unresolved or not handed out yet. The one exception is a token
      whose last number has been handed out with nothing in flight: the cursor cannot pass it. */
  lemma WatermarkIsExact(states: seq<System>, steps: seq<Step>, i: nat, g: nat)
    requires Run(states, steps) && i < |states| && g in states[i].sessions
    ensures var c := states[i].sessions[g];
            && (forall n: nat | n <= Watermark(c) :: Settles(states, steps, i, g, BlobId(c.token, n)))
            && (NextIsOpen(states, steps, i, g) <==>
                  !(BlobId(c.token, MAX_SEQ) in states[i].minted && c.inFlight == {}))
  {
    hide Enabled, Apply, Invariant, MintsAt, Settles, Unresolved, SessionOk;
    var c := states[i].sessions[g];
    forall n: nat | n <= Watermark(c) ensures Settles(states, steps, i, g, BlobId(c.token, n)) {
      BelowIsSettled(states, steps, i, g, n);
    }
    RunKeepsInvariant(states, steps, i);
    InFlightIsUnresolved(states, steps, i, g, Watermark(c) + 1);
    CursorIsUnminted(states[i], g);
  }

  /** The cursor itself has been handed out only when it is the last number. */
  lemma CursorIsUnminted(s: System, g: nat)
    requires Invariant(s) && g in s.sessions
    ensures var c := s.sessions[g];
            BlobId(c.token, c.nextSeq) in s.minted <==> BlobId(c.token, MAX_SEQ) in s.minted
  {
    assert SessionOk(s, s.sessions[g]);
  }

  // ---------------------------------------------------------------- what GC gets done

  /** An id is handed out once, so one that was resolved is not unresolved again. */
  lemma SettledIsResolved(states: seq<System>, steps: seq<Step>, i: nat, g: nat, id: BlobId)
    requires Run(states, steps) && i < |states| && Settles(states, steps, i, g, id)
    ensures !Unresolved(states, steps, i, g, id) && id in states[i].minted
  {
    hide Enabled, Invariant;
    var m: nat, r: nat :| m < r < i && MintsAt(states, steps, m, g, id) && steps[r] == Resolve(g, id);
    RunGoesForward(states, steps, m + 1, i);
    forall k: nat | k < i && MintsAt(states, steps, k, g, id) ensures k == m {
      if k < m {
        MintedIdsAreUnique(states, steps, k, m);
      } else if m < k {
        MintedIdsAreUnique(states, steps, m, k);
      }
    }
  }

  /** Garbage is taken: once a gateway has resolved every number up to `n`, the watermark it reports
      lets a round reclaim blob `n` as soon as nothing refers to it. */
  lemma SettledGarbageIsTaken(states: seq<System>, steps: seq<Step>, i: nat, g: nat, n: nat,
                              refs: set<BlobId>, live: map<nat, int>)
    requires Run(states, steps) && i < |states| && g in states[i].sessions && n < MAX_SEQ
    requires var t := states[i].sessions[g].token;
             && (forall k: nat | k <= n :: Settles(states, steps, i, g, BlobId(t, k)))
             && (t in live ==> live[t] >= Watermark(states[i].sessions[g])) && BlobId(t, n) !in refs
    ensures n <= Watermark(states[i].sessions[g])
    ensures IsOrphan(BlobId(states[i].sessions[g].token, n), refs, live)
  {
    hide Enabled, Apply, Invariant, MintsAt, Settles, Unresolved, Run, Watermark;
    var c := states[i].sessions[g];
    var w := Watermark(c);
    WatermarkIsExact(states, steps, i, g);
    if w < n {
      NextIsReached(states, i, g);
      SettledIsResolved(states, steps, i, g, BlobId(c.token, w + 1));
      CursorIsLast(states, steps, i, g);
    }
  }

  /** Once dereferenced, such a blob can be taken at every later time: nothing refers to it again. */
  lemma DereferencedIsTaken(states: seq<System>, steps: seq<Step>, i: nat, j: nat, k: nat, g: nat, n: nat,
                            ids: set<BlobId>, live: map<nat, int>)
    requires Run(states, steps) && i <= j < k < |states| && g in states[i].sessions && n < MAX_SEQ
    requires var t := states[i].sessions[g].token;
             && (forall m: nat | m <= n :: Settles(states, steps, i, g, BlobId(t, m)))
             && (t in live ==> live[t] >= Watermark(states[i].sessions[g]))
             && steps[j] == Unreference(ids) && BlobId(t, n) in ids
    ensures IsOrphan(BlobId(states[i].sessions[g].token, n), states[k].refs, live)
  {
    hide Invariant, MintsAt, Settles, Watermark, IsOrphan, Unresolved;
    var c := states[i].sessions[g];
    var id := BlobId(c.token, n);
    SettledIsClosed(states, steps, i, g, id);
    RunGoesForward(states, steps, i, j + 1);
    RunGoesForward(states, steps, j + 1, k);
    SettledGarbageIsTaken(states, steps, i, g, n, states[k].refs, live);
  }

  /** The PUT of a resolved id is over. */
  lemma SettledIsClosed(states: seq<System>, steps: seq<Step>, i: nat, g: nat, id: BlobId)
    requires Run(states, steps) && i < |states| && Settles(states, steps, i, g, id)
    ensures id in states[i].minted && id !in states[i].open
  {
    hide Invariant;
    var m: nat, r: nat :| m < r < i && MintsAt(states, steps, m, g, id) && steps[r] == Resolve(g, id);
    RunKeepsInvariant(states, steps, r);
    assert id in states[r].minted && id !in states[r].open by { CommittedIsClosed(states[r], id); }
    RunGoesForward(states, steps, r, i);
  }

  lemma CommittedIsClosed(s: System, id: BlobId)
    requires Invariant(s) && id in s.committed
    ensures id in s.minted && id !in s.open
  {
  }

  /** A fenced token is over once its last PUTs are given up. */
  lemma DrainedIsOver(s: System, t: nat, ids: set<BlobId>)
    requires Invariant(s) && t in s.fenced && ids <= s.open && forall id | id in s.open && id.token == t :: id in ids
    ensures Over(Apply(s, GiveUp(ids)), t)
  {
    hide SessionOk, Settled, BlobsOk;
  }

  lemma NextIsReached(states: seq<System>, i: nat, g: nat)
    requires i < |states| && g in states[i].sessions
    ensures Watermark(states[i].sessions[g]) >= -1
  {
  }

  lemma CursorIsLast(states: seq<System>, steps: seq<Step>, i: nat, g: nat)
    requires Run(states, steps) && i < |states| && g in states[i].sessions
    ensures var c := states[i].sessions[g];
            BlobId(c.token, MAX_SEQ) in states[i].minted && c.inFlight == {} ==> Watermark(c) == MAX_SEQ - 1
  {
    hide Run;
    RunKeepsInvariant(states, steps, i);
    assert SessionOk(states[i], states[i].sessions[g]);
  }

  // ---------------------------------------------------------------- the last number

  /** The history goes on with one more step. */
  lemma RunExtends(states: seq<System>, steps: seq<Step>, step: Step)
    requires Run(states, steps) && Enabled(states[|steps|], step)
    ensures Run(states + [Apply(states[|steps|], step)], steps + [step])
  {
    hide Enabled, Apply;
  }

  /** One PUT after another: gateway 7 holds token 1 and has handed out and resolved `n` numbers. */
  lemma {:induction false} PutsInTurn(n: nat) returns (states: seq<System>, steps: seq<Step>)
    requires n <= SEQS
    ensures Run(states, steps) && 7 in states[|steps|].sessions
    ensures states[|steps|].sessions[7]
            == if n <= MAX_SEQ then Session(1, n, false, {}) else Session(1, MAX_SEQ, true, {})
    ensures n > MAX_SEQ ==> BlobId(1, MAX_SEQ) in states[|steps|].minted
  {
    if n == 0 {
      RunExtends([EMPTY], [], Register(1));
      var s := Apply(EMPTY, Register(1));
      RunExtends([EMPTY, s], [Register(1)], Establish(7, 1));
      states, steps := [EMPTY, s, Apply(s, Establish(7, 1))], [Register(1), Establish(7, 1)];
    } else {
      states, steps := PutsInTurn(n - 1);
      states, steps := PutOnce(states, steps, BlobId(1, n - 1));
    }
  }

  lemma PutOnce(before: seq<System>, so: seq<Step>, id: BlobId) returns (states: seq<System>, steps: seq<Step>)
    requires Run(before, so) && 7 in before[|so|].sessions && id.seqno <= MAX_SEQ
    requires before[|so|].sessions[7] == Session(id.token, id.seqno, false, {})
    ensures Run(states, steps) && 7 in states[|steps|].sessions && id in states[|steps|].minted
    ensures states[|steps|].sessions[7]
            == if id.seqno < MAX_SEQ then Session(id.token, id.seqno + 1, false, {})
               else Session(id.token, MAX_SEQ, true, {})
  {
    hide Run;
    states, steps := before, so;
    RunHasSteps(states, steps);
    var s0 := before[|so|];
    RunExtends(states, steps, Mint(7));
    var s1 := Apply(s0, Mint(7));
    states, steps := states + [s1], steps + [Mint(7)];
    RunExtends(states, steps, Commit({id}));
    var s2 := Apply(s1, Commit({id}));
    states, steps := states + [s2], steps + [Commit({id})];
    RunExtends(states, steps, Resolve(7, id));
    states, steps := states + [Apply(s2, Resolve(7, id))], steps + [Resolve(7, id)];
  }

  lemma RunHasSteps(states: seq<System>, steps: seq<Step>)
    requires Run(states, steps)
    ensures |states| == |steps| + 1
  {
  }

  /** A history in which the watermark lags: all `2^32` numbers of a token are handed out and
      resolved, and the watermark stops one short of the last. */
  lemma LastNumberLags()
    ensures exists states: seq<System>, steps: seq<Step>, i: nat, g: nat ::
              && Run(states, steps) && i < |states| && g in states[i].sessions
              && !NextIsOpen(states, steps, i, g)
  {
    hide NextIsOpen, MintsAt, Apply, Enabled;
    var states, steps := PutsInTurn(SEQS);
    WatermarkIsExact(states, steps, |steps|, 7);
    assert !NextIsOpen(states, steps, |steps|, 7);
  }

  // ---------------------------------------------------------------- spent tokens

  /** A session is spent exactly when its token was fenced or its last number was handed out. */
  lemma {:induction false} SpentIff(states: seq<System>, steps: seq<Step>, i: nat, g: nat)
    requires Run(states, steps) && i < |states| && g in states[i].sessions
    ensures var c := states[i].sessions[g];
            c.exhausted <==> c.token in states[i].fenced || BlobId(c.token, MAX_SEQ) in states[i].minted
  {
    hide Enabled, Apply;
    RunKeepsInvariant(states, steps, i);
    assert SessionOk(states[i], states[i].sessions[g]);
    if i > 0 && g in states[i - 1].sessions {
      SpentIff(states, steps, i - 1, g);
    }
    if i > 0 {
      RunKeepsInvariant(states, steps, i - 1);
      SpentAfter(states[i - 1], steps[i - 1], g);
    }
  }

  lemma SpentAfter(s: System, step: Step, g: nat)
    requires Invariant(s) && Enabled(s, step) && g in Apply(s, step).sessions
    ensures var s' := Apply(s, step);
            s'.sessions[g].exhausted ==>
              || s'.sessions[g].token in s'.fenced
              || BlobId(s'.sessions[g].token, MAX_SEQ) in s'.minted
              || (g in s.sessions && s.sessions[g].exhausted && s.sessions[g].token == s'.sessions[g].token
                  && s.fenced <= s'.fenced && s.minted <= s'.minted)
  {
    hide BlobsOk, Settled;
  }

  /** What each step does to a session is what the session's own method does to it. */
  lemma StepsAreSessionCalls(s: System, step: Step, g: nat)
    requires Enabled(s, step) && g in s.sessions
    ensures Apply(s, step).sessions[g] ==
              var c := s.sessions[g];
              match step
              case Mint(h) => if h == g then Minted(c) else c
              case InstallSpent(h, t) => if h == g then InstalledIfSpent(c, t) else c
              case Fence(h) => if h == g then Fenced(c) else c
              case InstallForced(h, t) => if h == g then Fresh(t) else c
              case Resolve(h, id) => if h == g then Resolved(c, id) else c
              case _ => c
  {
  }

  /** A gateway leaves its token only by a forced rotation, or once the token is fenced or its last
      number has been handed out. */
  lemma TokenIsKeptUntilSpent(states: seq<System>, steps: seq<Step>, i: nat, g: nat)
    requires Run(states, steps) && i < |steps| && g in states[i].sessions
    ensures g in states[i + 1].sessions
    ensures var t := states[i].sessions[g].token;
            states[i + 1].sessions[g].token != t ==>
              || steps[i].InstallForced?
              || t in states[i].fenced
              || BlobId(t, MAX_SEQ) in states[i].minted
  {
    SpentIff(states, steps, i, g);
  }
}
