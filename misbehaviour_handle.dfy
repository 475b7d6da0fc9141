/** Misbehaviour handling of the dymint light client (the freeze rule of
    ICS 2, Client Semantics): two headers are evidence of misbehaviour when
    they conflict (two blocks at one height, or a higher block that is not
    later in time) and each would have been accepted against its own
    trusted consensus state; the client is then frozen. The check only
    reads the trusted consensus states and returns a new client state. */
module DymintMisbehaviour {
  import opened Outcomes
  import opened ClientTypes
  import Strings

  /** Go `time.Duration`: signed 64-bit nanoseconds. */
  const MinDuration: int := -0x8000_0000_0000_0000
  const MaxDuration: int := 0x7fff_ffff_ffff_ffff

  type Duration = d: int | MinDuration <= d <= MaxDuration

  /** `t.Sub(u)` for times in nanoseconds: the difference, saturated to the
      `Duration` range. */
  function Sub(t: int, u: int): (d: Duration)
    ensures MinDuration <= t - u <= MaxDuration ==> d == t - u
    ensures t - u > MaxDuration ==> d == MaxDuration
    ensures t - u < MinDuration ==> d == MinDuration
  {
    if t - u > MaxDuration then MaxDuration
    else if t - u < MinDuration then MinDuration
    else t - u
  }

  /** Frozen height set by misbehaviour: a non-zero marker, not a real height. */
  const FrozenHeight := Height(0, 1)

  /** The dymint client state. */
  datatype ClientState = ClientState(
    chainId: string,
    trustingPeriod: Duration,
    unbondingPeriod: Duration,
    maxClockDrift: Duration,
    latestHeight: Height,
    frozenHeight: Height
  )

  predicate IsFrozen(cs: ClientState)
  {
    cs.frozenHeight != ZeroHeight
  }

  /** A commit's block identifier; `wellFormed` says whether the
      Tendermint decoder (`BlockIDFromProto`) accepts it. */
  datatype BlockID = BlockID(hash: seq<bv8>, wellFormed: bool)

  /** A commit; `wellFormed` says whether `CommitFromProto` accepts it.
      Signatures are not examined by this check. */
  datatype Commit = Commit(blockId: BlockID, wellFormed: bool)

  /** The block header fields the check reads; time in nanoseconds. */
  datatype BlockHeader = BlockHeader(chainId: string, time: int)

  datatype SignedHeader = SignedHeader(header: BlockHeader, commit: Commit)

  /** A header submitted as evidence: the signed block, the height it
      claims (`GetHeight`) and the height of the consensus state it is
      verified against. */
  datatype Header = Header(signedHeader: SignedHeader, height: Height, trustedHeight: Height)

  datatype Misbehaviour = Misbehaviour(clientId: string, header1: Header, header2: Header)

  /** What the caller submits: dymint evidence or evidence of some other client type. */
  datatype SubmittedMisbehaviour =
    | DymintEvidence(misbehaviour: Misbehaviour)
    | OtherEvidence(clientType: string)

  datatype Which = Header1 | Header2

  /** Why one header fails verification. */
  datatype HeaderError = InvalidCommit | TrustingPeriodExpired | InvalidChainID

  datatype Error =
    | InvalidClientType
    | InvalidBlockID(which: Which)
    | InvalidMisbehaviour
    | ConsensusStateNotFound(which: Which)
    | HeaderVerificationFailed(which: Which, cause: HeaderError)

  /** The block hash, when the block identifier decodes. */
  function BlockIDFromProto(blockId: BlockID): (hash: Option<seq<bv8>>)
    ensures hash.Some? <==> blockId.wellFormed
    ensures hash.Some? ==> hash.value == blockId.hash
  {
    if blockId.wellFormed then Some(blockId.hash) else None
  }

  /** The chain name without its revision: the part before the first `-`,
      or the whole chain id when it has none. */
  function ChainIdPrefix(chainId: string): (name: string)
    ensures name <= chainId && '-' !in name
    ensures |name| == |chainId| || chainId[|name|] == '-'
  {
    Strings.SplitFirstPiece(chainId, '-');
    Strings.Split(chainId, '-')[0]
  }

  /** Chain ids that differ only in their revision have the same name. */
  lemma ChainIdPrefixOfRevision(name: string, revision: string)
    requires '-' !in name
    ensures ChainIdPrefix(name + "-" + revision) == name
  {
    Strings.SplitAfterPiece(name, revision, '-');
    assert name + "-" + revision == name + ['-'] + revision;
  }

  /** A chain id without `-` is its own name. */
  lemma ChainIdPrefixWithoutRevision(chainId: string)
    requires '-' !in chainId
    ensures ChainIdPrefix(chainId) == chainId
  {
    Strings.SplitSeparatorFree(chainId, '-');
  }

  /** The trusted consensus state is too old: its age at `now` is at least
      the trusting period. */
  predicate Expired(clientState: ClientState, consState: ConsensusState, now: int)
  {
    Sub(now, consState.timestamp) >= clientState.trustingPeriod
  }

  /** Away from the smallest duration, expiry is the plain comparison of the
      unbounded age with the trusting period, the boundary included. */
  lemma ExpiredIsAgeAtLeastPeriod(clientState: ClientState, consState: ConsensusState, now: int)
    requires clientState.trustingPeriod > MinDuration
    ensures Expired(clientState, consState, now) <==> now - consState.timestamp >= clientState.trustingPeriod
  {
  }

  /** `checkMisbehaviourHeader`: the commit must decode, the trusted
      consensus state must be younger than the trusting period, and the
      header's chain name must be the client's; checked in that order. */
  function CheckMisbehaviourHeader(
    clientState: ClientState, consState: ConsensusState, header: Header, currentTimestamp: int
  ): (r: Outcome<HeaderError>)
    ensures r == Fail(InvalidCommit) <==> !header.signedHeader.commit.wellFormed
    ensures r == Fail(TrustingPeriodExpired) <==>
              header.signedHeader.commit.wellFormed && Expired(clientState, consState, currentTimestamp)
    ensures r == Fail(InvalidChainID) <==>
              && header.signedHeader.commit.wellFormed
              && !Expired(clientState, consState, currentTimestamp)
              && ChainIdPrefix(header.signedHeader.header.chainId) != ChainIdPrefix(clientState.chainId)
  {
    if !header.signedHeader.commit.wellFormed then Fail(InvalidCommit)
    else if Sub(currentTimestamp, consState.timestamp) >= clientState.trustingPeriod then Fail(TrustingPeriodExpired)
    else if Strings.Split(header.signedHeader.header.chainId, '-')[0] != Strings.Split(clientState.chainId, '-')[0]
    then Fail(InvalidChainID)
    else Pass
  }

  /** The conflict classification: at one height the two block hashes must
      differ; at different heights header 1 must not be later in time than
      header 2. */
  function CheckConflict(m: Misbehaviour): (r: Outcome<Error>)
    ensures r == Pass <==>
      if m.header1.height == m.header2.height then
        && m.header1.signedHeader.commit.blockId.wellFormed
        && m.header2.signedHeader.commit.blockId.wellFormed
        && m.header1.signedHeader.commit.blockId.hash != m.header2.signedHeader.commit.blockId.hash
      else
        m.header1.signedHeader.header.time <= m.header2.signedHeader.header.time
  {
    if m.header1.height == m.header2.height then
      match (BlockIDFromProto(m.header1.signedHeader.commit.blockId),
             BlockIDFromProto(m.header2.signedHeader.commit.blockId))
      case (None, _) => Fail(InvalidBlockID(Header1))
      case (_, None) => Fail(InvalidBlockID(Header2))
      case (Some(hash1), Some(hash2)) =>
        if hash1 == hash2 then Fail(InvalidMisbehaviour) else Pass
    else if m.header1.signedHeader.header.time > m.header2.signedHeader.header.time then
      Fail(InvalidMisbehaviour)
    else
      Pass
  }

  /** `CheckMisbehaviourAndUpdateState`: classifies the conflict, looks up
      both trusted consensus states in the client's store, verifies header 1
      and then header 2 against them, and on success returns the client state
      frozen. A rejection returns no client state. */
  function CheckMisbehaviourAndUpdateState(
    cs: ClientState,
    clientStore: map<Height, ConsensusState>,
    evidence: SubmittedMisbehaviour,
    now: int
  ): (r: Result<ClientState, Error>)
    ensures r.Success? ==> r.value == cs.(frozenHeight := FrozenHeight) && IsFrozen(r.value)
  {
    match evidence
    case OtherEvidence(_) => Failure(InvalidClientType)
    case DymintEvidence(m) =>
      match CheckConflict(m)
      case Fail(e) => Failure(e)
      case Pass =>
        if m.header1.trustedHeight !in clientStore then Failure(ConsensusStateNotFound(Header1))
        else if m.header2.trustedHeight !in clientStore then Failure(ConsensusStateNotFound(Header2))
        else
          match CheckMisbehaviourHeader(cs, clientStore[m.header1.trustedHeight], m.header1, now)
          case Fail(e) => Failure(HeaderVerificationFailed(Header1, e))
          case Pass =>
            match CheckMisbehaviourHeader(cs, clientStore[m.header2.trustedHeight], m.header2, now)
            case Fail(e) => Failure(HeaderVerificationFailed(Header2, e))
            case Pass => Success(cs.(frozenHeight := FrozenHeight))
  }

  /** Both headers pass their own verification against their trusted states. */
  predicate BothHeadersVerify(cs: ClientState, clientStore: map<Height, ConsensusState>, m: Misbehaviour, now: int)
  {
    && m.header1.trustedHeight in clientStore
    && m.header2.trustedHeight in clientStore
    && CheckMisbehaviourHeader(cs, clientStore[m.header1.trustedHeight], m.header1, now) == Pass
    && CheckMisbehaviourHeader(cs, clientStore[m.header2.trustedHeight], m.header2, now) == Pass
  }

  /** Evidence freezes the client exactly when it is dymint evidence, the
      headers conflict and both verify; the frozen state differs from the
      input only in its frozen height. */
  lemma FreezesExactlyOnValidEvidence(
    cs: ClientState, clientStore: map<Height, ConsensusState>, evidence: SubmittedMisbehaviour, now: int
  )
    ensures CheckMisbehaviourAndUpdateState(cs, clientStore, evidence, now).Success? <==>
      && evidence.DymintEvidence?
      && CheckConflict(evidence.misbehaviour) == Pass
      && BothHeadersVerify(cs, clientStore, evidence.misbehaviour, now)
    ensures CheckMisbehaviourAndUpdateState(cs, clientStore, evidence, now).Success? ==>
      var frozen := CheckMisbehaviourAndUpdateState(cs, clientStore, evidence, now).value;
      && frozen.frozenHeight == FrozenHeight
      && frozen.chainId == cs.chainId
      && frozen.trustingPeriod == cs.trustingPeriod
      && frozen.unbondingPeriod == cs.unbondingPeriod
      && frozen.maxClockDrift == cs.maxClockDrift
      && frozen.latestHeight == cs.latestHeight
  {
  }

  /** Two headers at one height with equal block hashes are no fork. */
  lemma SameBlockRejected(
    cs: ClientState, clientStore: map<Height, ConsensusState>, m: Misbehaviour, now: int
  )
    requires m.header1.height == m.header2.height
    requires m.header1.signedHeader.commit.blockId.wellFormed && m.header2.signedHeader.commit.blockId.wellFormed
    requires m.header1.signedHeader.commit.blockId.hash == m.header2.signedHeader.commit.blockId.hash
    ensures CheckMisbehaviourAndUpdateState(cs, clientStore, DymintEvidence(m), now) == Failure(InvalidMisbehaviour)
  {
  }

  /** Headers at different heights whose times increase with height are no
      time violation; equal times are. */
  lemma MonotonicTimeRejected(
    cs: ClientState, clientStore: map<Height, ConsensusState>, m: Misbehaviour, now: int
  )
    requires m.header1.height != m.header2.height
    ensures m.header1.signedHeader.header.time > m.header2.signedHeader.header.time ==>
      CheckMisbehaviourAndUpdateState(cs, clientStore, DymintEvidence(m), now) == Failure(InvalidMisbehaviour)
    ensures m.header1.signedHeader.header.time <= m.header2.signedHeader.header.time ==>
      CheckConflict(m) == Pass
  {
  }

  /** A missing trusted consensus state fails the check, header 1's first. */
  lemma MissingTrustedStateRejected(
    cs: ClientState, clientStore: map<Height, ConsensusState>, m: Misbehaviour, now: int
  )
    requires CheckConflict(m) == Pass
    requires m.header1.trustedHeight !in clientStore || m.header2.trustedHeight !in clientStore
    ensures CheckMisbehaviourAndUpdateState(cs, clientStore, DymintEvidence(m), now) ==
      Failure(ConsensusStateNotFound(if m.header1.trustedHeight !in clientStore then Header1 else Header2))
  {
  }

  /** Header 1 is verified before header 2: when header 1 fails, its error
      is reported whatever header 2 is. */
  lemma Header1VerifiedFirst(
    cs: ClientState, clientStore: map<Height, ConsensusState>, m: Misbehaviour, now: int, e: HeaderError
  )
    requires CheckConflict(m) == Pass
    requires m.header1.trustedHeight in clientStore && m.header2.trustedHeight in clientStore
    requires CheckMisbehaviourHeader(cs, clientStore[m.header1.trustedHeight], m.header1, now) == Fail(e)
    ensures CheckMisbehaviourAndUpdateState(cs, clientStore, DymintEvidence(m), now) ==
      Failure(HeaderVerificationFailed(Header1, e))
  {
  }

  /** Accepted evidence is a genuine conflict: a fork at one height, or a
      strictly higher header that is not later in time. */
  lemma AcceptedEvidenceConflicts(
    cs: ClientState, clientStore: map<Height, ConsensusState>, m: Misbehaviour, now: int
  )
    requires !HeightLT(m.header1.height, m.header2.height)
    requires CheckMisbehaviourAndUpdateState(cs, clientStore, DymintEvidence(m), now).Success?
    ensures
      || (m.header1.height == m.header2.height
          && m.header1.signedHeader.commit.blockId.hash != m.header2.signedHeader.commit.blockId.hash)
      || (HeightLT(m.header2.height, m.header1.height)
          && m.header1.signedHeader.header.time <= m.header2.signedHeader.header.time)
  {
    if m.header1.height != m.header2.height {
      assert HeightLT(m.header2.height, m.header1.height);
    }
  }

  /** The check reads the client store only at the two trusted heights:
      stores that agree there give the same verdict. */
  lemma ReadsOnlyTrustedStates(
    cs: ClientState,
    store1: map<Height, ConsensusState>,
    store2: map<Height, ConsensusState>,
    m: Misbehaviour,
    now: int
  )
    requires forall h | h == m.header1.trustedHeight || h == m.header2.trustedHeight ::
               (h in store1 <==> h in store2) && (h in store1 ==> store1[h] == store2[h])
    ensures CheckMisbehaviourAndUpdateState(cs, store1, DymintEvidence(m), now)
         == CheckMisbehaviourAndUpdateState(cs, store2, DymintEvidence(m), now)
  {
    var t1, t2 := m.header1.trustedHeight, m.header2.trustedHeight;
    assert (t1 in store1 <==> t1 in store2) && (t1 in store1 ==> store1[t1] == store2[t1]);
    assert (t2 in store1 <==> t2 in store2) && (t2 in store1 ==> store1[t2] == store2[t2]);
  }

  /** A header is rejected as expired exactly when the trusted state's age
      reaches the trusting period: at the boundary it is rejected, one
      nanosecond earlier it passes this step. */
  lemma TrustingPeriodBoundary(
    cs: ClientState, consState: ConsensusState, header: Header, now: int
  )
    requires header.signedHeader.commit.wellFormed
    requires cs.trustingPeriod > MinDuration + 1
    ensures now - consState.timestamp == cs.trustingPeriod ==>
      CheckMisbehaviourHeader(cs, consState, header, now) == Fail(TrustingPeriodExpired)
    ensures now - consState.timestamp == cs.trustingPeriod - 1 ==>
      CheckMisbehaviourHeader(cs, consState, header, now) != Fail(TrustingPeriodExpired)
  {
  }

  /** Chain ids are compared by name only: a header of another revision of
      the client's chain passes the chain check. (That a header of another
      chain fails it is the third ensures of `CheckMisbehaviourHeader`.) */
  lemma ChainCheckIgnoresRevision(
    cs: ClientState, consState: ConsensusState, header: Header, now: int, name: string, r1: string, r2: string
  )
    requires '-' !in name
    requires cs.chainId == name + "-" + r1 && header.signedHeader.header.chainId == name + "-" + r2
    ensures CheckMisbehaviourHeader(cs, consState, header, now) != Fail(InvalidChainID)
  {
    ChainIdPrefixOfRevision(name, r1);
    ChainIdPrefixOfRevision(name, r2);
  }

  /** Example of the chain-id rule: `gaia-1` and `gaia-2` are one chain. */
  lemma ChainIdRevisionExample()
    ensures ChainIdPrefix("gaia-1") == ChainIdPrefix("gaia-2") == "gaia"
  {
    assert "gaia-1" == "gaia" + "-" + "1";
    assert "gaia-2" == "gaia" + "-" + "2";
    ChainIdPrefixOfRevision("gaia", "1");
    ChainIdPrefixOfRevision("gaia", "2");
  }

  /** Example of the chain-id rule: `ethermint` is not `gaia-1`'s chain. */
  lemma ChainIdOtherChainExample()
    ensures ChainIdPrefix("ethermint") != ChainIdPrefix("gaia-1")
  {
    assert "gaia-1" == "gaia" + "-" + "1";
    ChainIdPrefixOfRevision("gaia", "1");
    ChainIdPrefixWithoutRevision("ethermint");
    assert "ethermint"[0] != "gaia"[0];
  }
}
