/** The writer-token session (crates/epoch-client/src/writer_token.rs): a gateway mints blob
    ids locally from a token and a 32-bit sequence, and reports how far they are settled. */
module Writer {
  import opened Bytes

  /** Sequence numbers per token, `2^32`. */
  const SEQS: nat := 0x1_0000_0000
  const MAX_SEQ: nat := SEQS - 1

  datatype BlobId = BlobId(token: nat, seqno: nat) {
    /** `token(32) | seq(32)` (crates/epoch-proto/src/id.rs). */
    function Raw(): nat {
      token * SEQS + seqno
    }
  }

  function FromRaw(raw: nat): BlobId {
    BlobId(raw / SEQS, raw % SEQS)
  }

  /** The packing loses nothing. */
  lemma RawRoundTrips(id: BlobId, raw: nat)
    ensures id.seqno < SEQS ==> FromRaw(id.Raw()) == id
    ensures FromRaw(raw).Raw() == raw && FromRaw(raw).seqno < SEQS
  {
  }

  /** `TokenState`. */
  datatype Session = Session(token: nat, nextSeq: nat, exhausted: bool, inFlight: set<nat>)

  function Fresh(token: nat): Session {
    Session(token, 0, false, {})
  }

  /** The fast path: hand out `nextSeq`, marking the token spent after the last one. */
  function Minted(s: Session): Session {
    s.(nextSeq := if s.nextSeq < MAX_SEQ then s.nextSeq + 1 else s.nextSeq,
       exhausted := s.nextSeq >= MAX_SEQ,
       inFlight := s.inFlight + {s.nextSeq})
  }

  function Resolved(s: Session, id: BlobId): Session {
    if id.token == s.token then s.(inFlight := s.inFlight - {id.seqno}) else s
  }

  function Fenced(s: Session): Session {
    s.(exhausted := true)
  }

  /** What the slow path does with a registered token: another task may have rotated already. */
  function InstalledIfSpent(s: Session, newToken: nat): Session {
    if s.exhausted then Fresh(newToken) else s
  }

  predicate IsLeast(m: nat, seqs: set<nat>) {
    m in seqs && forall x | x in seqs :: m <= x
  }

  function Least(seqs: set<nat>): (m: nat)
    requires seqs != {}
    ensures IsLeast(m, seqs)
  {
    LeastExists(seqs);
    var m: nat :| IsLeast(m, seqs);
    m
  }

  lemma {:induction false} LeastExists(seqs: set<nat>)
    requires seqs != {}
    ensures exists m: nat :: IsLeast(m, seqs)
  {
    var x :| x in seqs;
    var rest := seqs - {x};
    if rest == {} {
      assert seqs == {x};
      assert IsLeast(x, seqs);
    } else {
      LeastExists(rest);
      var m: nat :| IsLeast(m, rest);
      assert forall y | y in seqs :: y == x || y in rest;
      assert IsLeast(if m <= x then m else x, seqs);
    }
  }

  /** `W(t)`: everything at or below it is settled. */
  function Watermark(s: Session): int {
    (if s.inFlight == {} then s.nextSeq else Least(s.inFlight)) - 1
  }

  datatype MintError = WriterStale(sinceMillis: nat) | RegistrationFailed

  class WriterSession {
    var token: nat
    var nextSeq: nat
    var exhausted: bool
    var inFlight: set<nat>
    var lastHeartbeatMillis: nat
    const staleAfterMillis: nat

    function State(): Session
      reads this
    {
      Session(token, nextSeq, exhausted, inFlight)
    }

    constructor (registered: nat, staleAfterMillis: nat, nowMillis: nat)
      ensures State() == Fresh(registered) && lastHeartbeatMillis == nowMillis
      ensures this.staleAfterMillis == staleAfterMillis
    {
      token, nextSeq, exhausted, inFlight := registered, 0, false, {};
      lastHeartbeatMillis := nowMillis;
      this.staleAfterMillis := staleAfterMillis;
    }

    method ResolveBlob(id: BlobId)
      modifies this
      ensures State() == Resolved(old(State()), id) && lastHeartbeatMillis == old(lastHeartbeatMillis)
    {
      if id.token == token {
        inFlight := inFlight - {id.seqno};
      }
    }

    method CommitWatermark() returns (t: nat, w: int)
      ensures t == token && w == Watermark(State())
    {
      w := nextSeq - 1;
      if inFlight != {} {
        var least :| least in inFlight;
        var rest := inFlight - {least};
        while rest != {}
          invariant least in inFlight && rest <= inFlight
          invariant forall x | x in inFlight :: x in rest || least <= x
          decreases |rest|
        {
          var x :| x in rest;
          rest := rest - {x};
          if x < least {
            least := x;
          }
        }
        w := least - 1;
      }
      t := token;
    }

    /** One pass of the fast path, under the lock. */
    method TryMint() returns (id: Option<BlobId>)
      modifies this
      ensures id.None? <==> old(exhausted)
      ensures id.Some? ==> id.value == BlobId(old(token), old(nextSeq)) && State() == Minted(old(State()))
      ensures id.None? ==> State() == old(State())
      ensures lastHeartbeatMillis == old(lastHeartbeatMillis)
    {
      if exhausted {
        return None;
      }
      var n := nextSeq;
      if n < MAX_SEQ {
        nextSeq := n + 1;
      } else {
        exhausted := true;
      }
      inFlight := inFlight + {n};
      return Some(BlobId(token, n));
    }

    method InstallIfSpent(newToken: nat)
      modifies this
      ensures State() == InstalledIfSpent(old(State()), newToken)
      ensures lastHeartbeatMillis == old(lastHeartbeatMillis)
    {
      if exhausted {
        token, nextSeq, exhausted, inFlight := newToken, 0, false, {};
      }
    }

    /** Mints one id with no other task running. `registrations` are the answers of the token
        source, in the order they would be asked for. */
    method NextBlobId(nowMillis: nat, registrations: seq<Option<nat>>)
      returns (r: Result<BlobId, MintError>, asked: nat)
      requires |registrations| >= 1
      modifies this
      ensures lastHeartbeatMillis == old(lastHeartbeatMillis)
      ensures var idle := nowMillis - lastHeartbeatMillis;
              idle > staleAfterMillis ==> r == Failure(WriterStale(idle)) && State() == old(State()) && asked == 0
      ensures nowMillis - lastHeartbeatMillis <= staleAfterMillis && !old(exhausted) ==>
                && r == Success(BlobId(old(token), old(nextSeq)))
                && State() == Minted(old(State())) && asked == 0
      ensures nowMillis - lastHeartbeatMillis <= staleAfterMillis && old(exhausted) ==>
                && asked == 1
                && match registrations[0]
                   case None => r == Failure(RegistrationFailed) && State() == old(State())
                   case Some(newToken) => r == Success(BlobId(newToken, 0)) && State() == Minted(Fresh(newToken))
    {
      asked := 0;
      var idle := if nowMillis > lastHeartbeatMillis then nowMillis - lastHeartbeatMillis else 0;
      if idle > staleAfterMillis {
        return Failure(WriterStale(idle)), 0;
      }
      while true
        invariant asked <= 1 && lastHeartbeatMillis == old(lastHeartbeatMillis)
        invariant asked == 0 ==> State() == old(State())
        invariant asked == 1 ==>
                    old(exhausted) && registrations[0].Some? && State() == Fresh(registrations[0].value)
        decreases 1 - asked
      {
        var id := TryMint();
        if id.Some? {
          return Success(id.value), asked;
        }
        var newToken := registrations[asked];
        asked := asked + 1;
        if newToken.None? {
          return Failure(RegistrationFailed), asked;
        }
        InstallIfSpent(newToken.value);
      }
    }

    /** Fences the current token, then rotates; a failed registration leaves the fence up. */
    method ForceRotate(nowMillis: nat, registration: Option<nat>) returns (ok: bool)
      modifies this
      ensures ok == registration.Some?
      ensures State() == if ok then Fresh(registration.value) else Fenced(old(State()))
      ensures lastHeartbeatMillis == if ok then nowMillis else old(lastHeartbeatMillis)
    {
      exhausted := true;
      if registration.None? {
        return false;
      }
      token, nextSeq, exhausted, inFlight := registration.value, 0, false, {};
      lastHeartbeatMillis := nowMillis;
      return true;
    }
  }
}
