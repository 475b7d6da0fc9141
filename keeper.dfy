/** The 02-client keeper: the client identifier allocator and the client
    record store. The store holds the next-client-sequence counter, one
    client state per client identifier and one consensus state per
    (client identifier, height); each record lives at its ICS 24 path
    (module Host), and the iterators read those paths back. */
module ClientKeeper {
  import opened Outcomes
  import opened ClientTypes
  import opened Host

  /** An entry the consensus-state iterator hands to its callback. */
  type ConsensusEntry = (string, ConsensusStateWithHeight)

  function EntryKey(e: ConsensusEntry): (string, Height)
  {
    (e.0, e.1.height)
  }

  function EntryKeys(entries: seq<ConsensusEntry>): set<(string, Height)>
  {
    set e | e in entries :: EntryKey(e)
  }

  lemma EntryKeysSnoc(entries: seq<ConsensusEntry>, e: ConsensusEntry)
    ensures EntryKeys(entries + [e]) == EntryKeys(entries) + {EntryKey(e)}
  {
    forall x | x in entries + [e]
      ensures x in entries || x == e
    {
    }
  }

  /** No (client id, height) is reported twice. */
  predicate DistinctEntries(entries: seq<ConsensusEntry>)
  {
    forall i, j | 0 <= i < j < |entries| :: EntryKey(entries[i]) != EntryKey(entries[j])
  }

  /** An enumeration without repeated keys has as many entries as keys. */
  lemma {:induction false} DistinctEntriesCount(entries: seq<ConsensusEntry>)
    requires DistinctEntries(entries)
    ensures |EntryKeys(entries)| == |entries|
  {
    if entries != [] {
      var init := entries[..|entries| - 1];
      var last := entries[|entries| - 1];
      LastKeyIsNew(entries);
      DistinctEntriesCount(init);
      assert entries == init + [last];
      EntryKeysSnoc(init, last);
    }
  }

  /** In an enumeration without repeated keys, the last entry's key is not
      among the keys before it, and those entries have no repeats either. */
  lemma LastKeyIsNew(entries: seq<ConsensusEntry>)
    requires DistinctEntries(entries) && entries != []
    ensures DistinctEntries(entries[..|entries| - 1])
    ensures EntryKey(entries[|entries| - 1]) !in EntryKeys(entries[..|entries| - 1])
  {
    var init := entries[..|entries| - 1];
    forall e | e in init
      ensures EntryKey(e) != EntryKey(entries[|entries| - 1])
    {
      var i :| 0 <= i < |init| && init[i] == e;
      assert entries[i] == e;
    }
  }

  /** The client ids of a client enumeration. */
  function ClientIds(clients: seq<(string, ClientState)>): set<string>
  {
    set e | e in clients :: e.0
  }

  lemma ClientIdsSnoc(clients: seq<(string, ClientState)>, e: (string, ClientState))
    ensures ClientIds(clients + [e]) == ClientIds(clients) + {e.0}
  {
    forall x | x in clients + [e]
      ensures x in clients || x == e
    {
    }
  }

  /** The entry is one of the records, under its client id and height. */
  predicate RecordedIn(records: map<(string, Height), ConsensusState>, e: ConsensusEntry)
  {
    EntryKey(e) in records && records[EntryKey(e)] == e.1.consensusState
  }

  /** Loop invariant of the consensus-state walk: `pending` holds the keys
      not yet read; every entry handed over is one of the records, was read
      from a key no longer pending, and appears once; every record is still
      pending or was handed over. */
  ghost predicate Walked(
    records: map<(string, Height), ConsensusState>,
    pending: set<Key>,
    visited: seq<ConsensusEntry>
  )
  {
    && (forall i | 0 <= i < |visited| :: RecordedIn(records, visited[i]))
    && (forall i | 0 <= i < |visited| :: ConsensusStateKey(visited[i].0, visited[i].1.height) !in pending)
    && DistinctEntries(visited)
    && (forall p | p in records :: ConsensusStateKey(p.0, p.1) in pending || p in EntryKeys(visited))
    && EntryKeys(visited) <= records.Keys
  }

  /** Reading a key the consensus filter rejects keeps the walk invariant. */
  lemma WalkSkip(
    records: map<(string, Height), ConsensusState>,
    pending: set<Key>,
    visited: seq<ConsensusEntry>,
    k: Key
  )
    requires Walked(records, pending, visited)
    requires k in pending && k.ClientStateKey?
    ensures Walked(records, pending - {k}, visited)
  {
  }

  /** Handing over the record a consensus key addresses keeps the walk invariant. */
  lemma WalkVisit(
    records: map<(string, Height), ConsensusState>,
    pending: set<Key>,
    visited: seq<ConsensusEntry>,
    k: Key,
    cs: ConsensusStateWithHeight
  )
    requires Walked(records, pending, visited)
    requires k in pending && k.ConsensusStateKey?
    requires cs.height == k.height && (k.clientId, k.height) in records
    requires cs.consensusState == records[(k.clientId, k.height)]
    ensures Walked(records, pending - {k}, visited + [(k.clientId, cs)])
  {
    EntryKeysSnoc(visited, (k.clientId, cs));
  }

  /** A walk with nothing pending has handed over every record. */
  lemma WalkDone(
    records: map<(string, Height), ConsensusState>,
    pending: set<Key>,
    visited: seq<ConsensusEntry>
  )
    requires Walked(records, pending, visited)
    ensures forall i | 0 <= i < |visited| :: RecordedIn(records, visited[i])
    ensures DistinctEntries(visited)
    ensures pending == {} ==> EntryKeys(visited) == records.Keys
  {
  }

  /** No entry handed to the callback so far made it stop: entry `i` was
      offered together with the `i` entries before it. */
  ghost predicate NoneStopped<T>(stop: (seq<(string, T)>, string, T) -> bool, visited: seq<(string, T)>)
  {
    forall i | 0 <= i < |visited| :: !stop(visited[..i], visited[i].0, visited[i].1)
  }

  /** An entry the callback lets pass extends the walk. */
  lemma NoneStoppedSnoc<T>(stop: (seq<(string, T)>, string, T) -> bool, visited: seq<(string, T)>, e: (string, T))
    requires NoneStopped(stop, visited) && !stop(visited, e.0, e.1)
    ensures NoneStopped(stop, visited + [e])
  {
    assert forall i | 0 <= i <= |visited| :: (visited + [e])[..i] == visited[..i];
  }

  /** An entry the callback stops at ends the walk as its last entry. */
  lemma StoppedLast<T>(stop: (seq<(string, T)>, string, T) -> bool, visited: seq<(string, T)>, e: (string, T))
    requires NoneStopped(stop, visited) && stop(visited, e.0, e.1)
    ensures var walk := visited + [e];
      && (forall i | 0 <= i < |walk| - 1 :: !stop(walk[..i], walk[i].0, walk[i].1))
      && stop(walk[..|walk| - 1], walk[|walk| - 1].0, walk[|walk| - 1].1)
  {
    assert forall i | 0 <= i <= |visited| :: (visited + [e])[..i] == visited[..i];
  }

  /** The genesis form of a client enumeration: each client state paired
      with its own identifier, in the same order. */
  method Identify(clients: seq<(string, ClientState)>) returns (genClients: seq<IdentifiedClientState>)
    ensures |genClients| == |clients|
    ensures forall a | 0 <= a < |clients| :: genClients[a] == IdentifiedClientState(clients[a].0, clients[a].1)
    ensures (set c | c in genClients :: c.clientId) == ClientIds(clients)
  {
    genClients := [];
    var i := 0;
    while i < |clients|
      invariant 0 <= i <= |clients|
      invariant |genClients| == i
      invariant forall a | 0 <= a < i :: genClients[a] == IdentifiedClientState(clients[a].0, clients[a].1)
      invariant (set c | c in genClients :: c.clientId) == ClientIds(clients[..i])
    {
      genClients := genClients + [IdentifiedClientState(clients[i].0, clients[i].1)];
      assert clients[..i + 1] == clients[..i] + [clients[i]];
      i := i + 1;
    }
    assert clients[..i] == clients;
  }

  /** Loop invariant of the client walk: every pair handed over is a
      stored client, was read from a key no longer pending, and no client
      appears twice; every client is still pending or was handed over. */
  ghost predicate ClientsWalked(clients: map<string, ClientState>, pending: set<Key>, visited: seq<(string, ClientState)>)
  {
    && (forall i | 0 <= i < |visited| :: visited[i].0 in clients && clients[visited[i].0] == visited[i].1)
    && (forall i | 0 <= i < |visited| :: ClientStateKey(visited[i].0) !in pending)
    && (forall i, j | 0 <= i < j < |visited| :: visited[i].0 != visited[j].0)
    && (forall id | id in clients :: ClientStateKey(id) in pending || id in ClientIds(visited))
    && ClientIds(visited) <= clients.Keys
  }

  /** Reading a key the client filter rejects keeps the walk invariant. */
  lemma ClientWalkSkip(clients: map<string, ClientState>, pending: set<Key>, visited: seq<(string, ClientState)>, k: Key)
    requires ClientsWalked(clients, pending, visited)
    requires k in pending && k.ConsensusStateKey?
    ensures ClientsWalked(clients, pending - {k}, visited)
  {
  }

  /** Handing over the client a client-state key addresses keeps the walk invariant. */
  lemma ClientWalkVisit(clients: map<string, ClientState>, pending: set<Key>, visited: seq<(string, ClientState)>, k: Key)
    requires ClientsWalked(clients, pending, visited)
    requires k in pending && k.ClientStateKey? && k.clientId in clients
    ensures ClientsWalked(clients, pending - {k}, visited + [(k.clientId, clients[k.clientId])])
  {
    ClientIdsSnoc(visited, (k.clientId, clients[k.clientId]));
  }

  /** A client walk with nothing pending has handed over every client. */
  lemma ClientWalkDone(clients: map<string, ClientState>, pending: set<Key>, visited: seq<(string, ClientState)>)
    requires ClientsWalked(clients, pending, visited)
    ensures forall i | 0 <= i < |visited| :: visited[i].0 in clients && clients[visited[i].0] == visited[i].1
    ensures forall i, j | 0 <= i < j < |visited| :: visited[i].0 != visited[j].0
    ensures pending == {} ==> ClientIds(visited) == clients.Keys
  {
  }

  /** A client's consensus states tagged with its client id. */
  function Tagged(group: ClientConsensusStates): (entries: seq<ConsensusEntry>)
    ensures |entries| == |group.consensusStates|
  {
    seq(|group.consensusStates|, j requires 0 <= j < |group.consensusStates| =>
      (group.clientId, group.consensusStates[j]))
  }

  /** All entries of an export, group after group. */
  function Flatten(groups: seq<ClientConsensusStates>): seq<ConsensusEntry>
  {
    if groups == [] then []
    else Flatten(groups[..|groups| - 1]) + Tagged(groups[|groups| - 1])
  }

  /** Appending a consensus state to one group adds exactly that entry. */
  lemma {:induction false} FlattenGrow(groups: seq<ClientConsensusStates>, idx: nat, cs: ConsensusStateWithHeight)
    requires idx < |groups|
    ensures multiset(Flatten(groups[idx := groups[idx].(consensusStates := groups[idx].consensusStates + [cs])]))
         == multiset(Flatten(groups)) + multiset{(groups[idx].clientId, cs)}
  {
    var g := groups[idx];
    var g' := g.(consensusStates := g.consensusStates + [cs]);
    var grown := groups[idx := g'];
    var n := |groups| - 1;
    var item := (g.clientId, cs);
    TaggedGrow(g, cs);
    assert Flatten(groups) == Flatten(groups[..n]) + Tagged(groups[n]);
    assert Flatten(grown) == Flatten(grown[..n]) + Tagged(grown[n]);
    if idx == n {
      assert grown[..n] == groups[..n];
      assert Flatten(grown) == Flatten(groups[..n]) + Tagged(g) + [item];
    } else {
      assert grown[..n] == groups[..n][idx := g'];
      FlattenGrow(groups[..n], idx, cs);
      assert grown[n] == groups[n];
    }
  }

  lemma TaggedGrow(g: ClientConsensusStates, cs: ConsensusStateWithHeight)
    ensures Tagged(g.(consensusStates := g.consensusStates + [cs])) == Tagged(g) + [(g.clientId, cs)]
  {
  }

  /** Opening a new group adds exactly its entries. */
  lemma FlattenSnoc(groups: seq<ClientConsensusStates>, g: ClientConsensusStates)
    ensures Flatten(groups + [g]) == Flatten(groups) + Tagged(g)
  {
    assert (groups + [g])[..|groups|] == groups;
  }

  /** Each group is indexed under its client id at its own position, every
      index entry names its group, and no group is empty. */
  ghost predicate Indexed(groups: seq<ClientConsensusStates>, index: map<string, int>)
  {
    && (forall a | 0 <= a < |groups| :: |groups[a].consensusStates| > 0)
    && (forall id | id in index :: 0 <= index[id] < |groups| && groups[index[id]].clientId == id)
    && (forall a | 0 <= a < |groups| :: groups[a].clientId in index && index[groups[a].clientId] == a)
  }

  /** Indexed groups have distinct client ids. */
  lemma IndexedDistinct(groups: seq<ClientConsensusStates>, index: map<string, int>)
    requires Indexed(groups, index)
    ensures forall a, b | 0 <= a < b < |groups| :: groups[a].clientId != groups[b].clientId
  {
  }

  /** Loop invariant of the genesis grouping: the groups are indexed and
      hold exactly the entries grouped so far. */
  ghost predicate Grouped(groups: seq<ClientConsensusStates>, index: map<string, int>, done: seq<ConsensusEntry>)
  {
    Indexed(groups, index) && multiset(Flatten(groups)) == multiset(done)
  }

  /** Growing an existing group keeps the index. */
  lemma IndexedJoin(groups: seq<ClientConsensusStates>, index: map<string, int>, clientId: string, cs: ConsensusStateWithHeight)
    requires Indexed(groups, index) && clientId in index
    ensures var idx := index[clientId];
      Indexed(groups[idx := groups[idx].(consensusStates := groups[idx].consensusStates + [cs])], index)
  {
  }

  /** A new group at the end, indexed under its client id, keeps the index. */
  lemma IndexedOpen(groups: seq<ClientConsensusStates>, index: map<string, int>, clientId: string, cs: ConsensusStateWithHeight)
    requires Indexed(groups, index) && clientId !in index
    ensures Indexed(groups + [ClientConsensusStates(clientId, [cs])], index[clientId := |groups|])
  {
    var grown := groups + [ClientConsensusStates(clientId, [cs])];
    assert forall a | 0 <= a < |groups| :: grown[a] == groups[a];
  }

  /** An entry of an already indexed client joins that client's group. */
  lemma GroupJoin(
    groups: seq<ClientConsensusStates>, index: map<string, int>, done: seq<ConsensusEntry>,
    clientId: string, cs: ConsensusStateWithHeight
  )
    requires Grouped(groups, index, done) && clientId in index
    ensures var idx := index[clientId];
      Grouped(groups[idx := groups[idx].(consensusStates := groups[idx].consensusStates + [cs])],
              index, done + [(clientId, cs)])
  {
    IndexedJoin(groups, index, clientId, cs);
    FlattenGrow(groups, index[clientId], cs);
  }

  /** An entry of a new client opens a group at the end. */
  lemma GroupOpen(
    groups: seq<ClientConsensusStates>, index: map<string, int>, done: seq<ConsensusEntry>,
    clientId: string, cs: ConsensusStateWithHeight
  )
    requires Grouped(groups, index, done) && clientId !in index
    ensures Grouped(groups + [ClientConsensusStates(clientId, [cs])],
                    index[clientId := |groups|], done + [(clientId, cs)])
  {
    IndexedOpen(groups, index, clientId, cs);
    FlattenOpen(groups, done, clientId, cs);
  }

  /** A new one-entry group adds exactly that entry. */
  lemma FlattenOpen(groups: seq<ClientConsensusStates>, done: seq<ConsensusEntry>, clientId: string, cs: ConsensusStateWithHeight)
    requires multiset(Flatten(groups)) == multiset(done)
    ensures multiset(Flatten(groups + [ClientConsensusStates(clientId, [cs])])) == multiset(done + [(clientId, cs)])
  {
    var group := ClientConsensusStates(clientId, [cs]);
    FlattenSnoc(groups, group);
    assert Tagged(group) == [(clientId, cs)];
  }

  /** The genesis grouping of consensus entries by client id
      (`GetAllConsensusStates`'s callback): the first entry of a client opens
      a group at the end, later ones join it. Group ids are distinct, no
      group is empty, and the groups hold exactly the given entries. */
  method GroupByClient(entries: seq<ConsensusEntry>) returns (groups: seq<ClientConsensusStates>)
    ensures forall i, j | 0 <= i < j < |groups| :: groups[i].clientId != groups[j].clientId
    ensures forall i | 0 <= i < |groups| :: |groups[i].consensusStates| > 0
    ensures multiset(Flatten(groups)) == multiset(entries)
  {
    groups := [];
    var index: map<string, int> := map[];
    ghost var done: seq<ConsensusEntry> := [];
    var i := 0;
    while i < |entries|
      invariant 0 <= i <= |entries|
      invariant done == entries[..i]
      invariant Grouped(groups, index, done)
    {
      groups, index := AddToGroup(groups, index, done, entries[i]);
      done := done + [entries[i]];
      i := i + 1;
    }
    assert done == entries;
    IndexedDistinct(groups, index);
  }

  /** The grouping callback for one entry: a client already indexed gets
      the consensus state appended to its group; a new client opens a group
      at the end and is indexed there. */
  method AddToGroup(
    groups: seq<ClientConsensusStates>, index: map<string, int>, ghost done: seq<ConsensusEntry>, entry: ConsensusEntry
  ) returns (groups': seq<ClientConsensusStates>, index': map<string, int>)
    requires Grouped(groups, index, done)
    ensures Grouped(groups', index', done + [entry])
  {
    var (clientId, cs) := entry;
    if clientId in index {
      var idx := index[clientId];
      GroupJoin(groups, index, done, clientId, cs);
      groups' := groups[idx := groups[idx].(consensusStates := groups[idx].consensusStates + [cs])];
      index' := index;
    } else {
      GroupOpen(groups, index, done, clientId, cs);
      groups' := groups + [ClientConsensusStates(clientId, [cs])];
      index' := index[clientId := |groups'| - 1];
    }
  }

  /** Grouping distinct entries keeps their number. */
  lemma GroupedCount(groups: seq<ClientConsensusStates>, entries: seq<ConsensusEntry>)
    requires multiset(Flatten(groups)) == multiset(entries) && DistinctEntries(entries)
    ensures |Flatten(groups)| == |EntryKeys(entries)|
  {
    DistinctEntriesCount(entries);
    assert |multiset(Flatten(groups))| == |multiset(entries)|;
  }

  /** The error of `ValidateSelfClient`'s own check. */
  datatype Error =
    | InvalidClient(expected: string, got: string)
    | SelfClientStateRejected(reason: string)

  /** `ValidateSelfClient`: a counterparty's record of this chain must carry
      this chain's client type; when it does, the verdict is the self
      client's own rule applied to the staking unbonding time. */
  function ValidateSelfClient(
    selfClientType: string,
    validateSelfClientState: (int, ClientState) -> Outcome<Error>,
    unbondingTime: int,
    clientState: ClientState
  ): (r: Outcome<Error>)
    ensures selfClientType != clientState.clientType ==>
              r == Fail(InvalidClient(selfClientType, clientState.clientType))
    ensures selfClientType == clientState.clientType ==>
              r == validateSelfClientState(unbondingTime, clientState)
  {
    if selfClientType != clientState.clientType then
      Fail(InvalidClient(selfClientType, clientState.clientType))
    else
      validateSelfClientState(unbondingTime, clientState)
  }

  /** A mismatched client type is rejected before the self client's rule is consulted. */
  lemma MismatchIgnoresSelfRule(
    selfClientType: string,
    rule1: (int, ClientState) -> Outcome<Error>,
    rule2: (int, ClientState) -> Outcome<Error>,
    unbondingTime: int,
    clientState: ClientState
  )
    requires selfClientType != clientState.clientType
    ensures ValidateSelfClient(selfClientType, rule1, unbondingTime, clientState)
         == ValidateSelfClient(selfClientType, rule2, unbondingTime, clientState)
         != Pass
  {
  }

  class Keeper {
    /** The `nextClientSequence` record; None when it was never written. */
    var nextClientSequence: Option<Uint64>
    /** `clients/<clientID>/clientState` records. */
    var clientStates: map<string, ClientState>
    /** `clients/<clientID>/consensusStates/<height>` records. */
    var consensusStates: map<(string, Height), ConsensusState>

    /** Every stored client identifier is a single path segment, so each
        record's path reads back to the record (Host.ParseKeyOfKeyOf). */
    ghost predicate Valid()
      reads this
    {
      && (forall id | id in clientStates :: IsPathSegment(id))
      && (forall p | p in consensusStates :: IsPathSegment(p.0))
    }

    /** A store with no records and no counter. */
    constructor ()
      ensures Valid()
      ensures nextClientSequence == None && clientStates == map[] && consensusStates == map[]
    {
      nextClientSequence := None;
      clientStates := map[];
      consensusStates := map[];
    }

    /** The keys of every stored client and consensus record: the paths the
        prefix iterator over `clients` walks. */
    function StoredKeys(): set<Key>
      reads this
    {
      (set id | id in clientStates :: ClientStateKey(id))
      + (set p | p in consensusStates :: ConsensusStateKey(p.0, p.1))
    }

    /** What a stored key tells about the store. */
    lemma StoredKey(k: Key)
      requires Valid() && k in StoredKeys()
      ensures IsPathSegment(k.clientId)
      ensures k.ClientStateKey? ==> k.clientId in clientStates
      ensures k.ConsensusStateKey? ==> (k.clientId, k.height) in consensusStates
    {
    }

    /** The entry is a stored consensus state, under its client id and height. */
    predicate Recorded(e: ConsensusEntry)
      reads this
    {
      RecordedIn(consensusStates, e)
    }

    /** `GetNextClientSequence`: a missing counter is fatal, so callers must
        have initialised it. */
    method GetNextClientSequence() returns (sequence: Uint64)
      requires nextClientSequence.Some?
      ensures nextClientSequence == Some(sequence)
    {
      sequence := nextClientSequence.value;
    }

    /** `SetNextClientSequence`: overwrites the counter and nothing else. */
    method SetNextClientSequence(sequence: Uint64)
      modifies this`nextClientSequence
      ensures nextClientSequence == Some(sequence)
    {
      nextClientSequence := Some(sequence);
    }

    /** `GenerateClientIdentifier`: formats the identifier from the stored
        sequence and stores the next sequence (a `uint64` increment). No
        client or consensus record changes. */
    method GenerateClientIdentifier(clientType: string) returns (clientId: string)
      requires nextClientSequence.Some?
      modifies this`nextClientSequence
      ensures clientId == FormatClientIdentifier(clientType, old(nextClientSequence.value))
      ensures nextClientSequence == Some(Increment(old(nextClientSequence.value)))
      ensures clientId != FormatClientIdentifier(clientType, nextClientSequence.value)
    {
      var nextClientSeq := GetNextClientSequence();
      clientId := FormatClientIdentifier(clientType, nextClientSeq);
      nextClientSeq := Increment(nextClientSeq);
      SetNextClientSequence(nextClientSeq);
      SuccessiveIdentifiersDistinct(clientType, old(nextClientSequence.value));
    }

    /** `GetClientState`. */
    function GetClientState(clientId: string): (r: Option<ClientState>)
      reads this
      ensures r.Some? <==> ClientStateKey(clientId) in StoredKeys()
      ensures r.Some? ==> clientStates[clientId] == r.value
    {
      if clientId in clientStates then Some(clientStates[clientId]) else None
    }

    /** `SetClientState`: a total overwrite of the one record at
        `clients/<clientID>/clientState`. */
    method SetClientState(clientId: string, clientState: ClientState)
      modifies this`clientStates
      ensures GetClientState(clientId) == Some(clientState)
      ensures forall other | other != clientId :: GetClientState(other) == old(GetClientState(other))
      ensures clientStates.Keys == old(clientStates.Keys) + {clientId}
      ensures old(Valid()) && IsPathSegment(clientId) ==> Valid()
    {
      clientStates := clientStates[clientId := clientState];
    }

    /** `GetClientConsensusState`. */
    function GetClientConsensusState(clientId: string, height: Height): (r: Option<ConsensusState>)
      reads this
      ensures r.Some? <==> ConsensusStateKey(clientId, height) in StoredKeys()
      ensures r.Some? ==> consensusStates[(clientId, height)] == r.value
    {
      if (clientId, height) in consensusStates then Some(consensusStates[(clientId, height)]) else None
    }

    /** `SetClientConsensusState`: overwrites the one record at
        `clients/<clientID>/consensusStates/<height>`. */
    method SetClientConsensusState(clientId: string, height: Height, consensusState: ConsensusState)
      modifies this`consensusStates
      ensures GetClientConsensusState(clientId, height) == Some(consensusState)
      ensures forall id, h | (id, h) != (clientId, height) ::
                GetClientConsensusState(id, h) == old(GetClientConsensusState(id, h))
      ensures consensusStates.Keys == old(consensusStates.Keys) + {(clientId, height)}
      ensures old(Valid()) && IsPathSegment(clientId) ==> Valid()
    {
      consensusStates := consensusStates[(clientId, height) := consensusState];
    }

    /** `HasClientConsensusState`: holds exactly when the lookup finds a record. */
    function HasClientConsensusState(clientId: string, height: Height): (r: bool)
      reads this
      ensures r <==> GetClientConsensusState(clientId, height).Some?
    {
      (clientId, height) in consensusStates
    }

    /** `GetLatestClientConsensusState`: nothing without a client state;
        otherwise the consensus state at the client state's latest height. */
    function GetLatestClientConsensusState(clientId: string): (r: Option<ConsensusState>)
      reads this
      ensures GetClientState(clientId).None? ==> r.None?
      ensures GetClientState(clientId).Some? ==>
                r == GetClientConsensusState(clientId, GetClientState(clientId).value.latestHeight)
    {
      match GetClientState(clientId)
      case None => None
      case Some(clientState) => GetClientConsensusState(clientId, clientState.latestHeight)
    }

    /** One client's consensus states by height: what a light client reads
        through `ClientStore(clientId)`. It agrees with the keeper's own
        lookups and sees no other client's records. */
    function ClientConsensusStore(clientId: string): (view: map<Height, ConsensusState>)
      reads this
      ensures forall h :: h in view <==> HasClientConsensusState(clientId, h)
      ensures forall h | h in view :: GetClientConsensusState(clientId, h) == Some(view[h])
    {
      map h | h in (set p | p in consensusStates && p.0 == clientId :: p.1) :: consensusStates[(clientId, h)]
    }

    /** `IterateConsensusStates`: walks the stored paths, keeps those the
        consensus filter accepts, and hands each to the callback `stop`,
        together with the entries handed over before it, until it answers
        true. Returns the entries handed over, in order: each is a stored
        consensus state, none repeats, only the last may have stopped the
        walk, and a walk that did not stop saw every consensus state. The
        store's key order is not modelled: any order may be taken. */
    method IterateConsensusStates(stop: (seq<ConsensusEntry>, string, ConsensusStateWithHeight) -> bool)
      returns (visited: seq<ConsensusEntry>)
      requires Valid()
      ensures forall i | 0 <= i < |visited| :: Recorded(visited[i])
      ensures DistinctEntries(visited)
      ensures forall i | 0 <= i < |visited| - 1 :: !stop(visited[..i], visited[i].0, visited[i].1)
      ensures (|visited| > 0 && stop(visited[..|visited| - 1], visited[|visited| - 1].0, visited[|visited| - 1].1))
              || EntryKeys(visited) == consensusStates.Keys
    {
      var records := consensusStates;
      var pending := StoredKeys();
      visited := [];
      while pending != {}
        invariant pending <= StoredKeys()
        invariant Walked(records, pending, visited)
        invariant NoneStopped(stop, visited)
        decreases pending
      {
        var k :| k in pending;
        StoredKey(k);
        ConsensusEntryOfKey(k);
        var entry := ConsensusEntryOf(KeyOf(k));
        if entry.Some? {
          var (clientId, height) := entry.value;
          var cs := ConsensusStateWithHeight(height, records[(clientId, height)]);
          WalkVisit(records, pending, visited, k, cs);
          var seen := visited;
          visited := visited + [(clientId, cs)];
          pending := pending - {k};
          if stop(seen, clientId, cs) {
            StoppedLast(stop, seen, (clientId, cs));
            break;
          }
          NoneStoppedSnoc(stop, seen, (clientId, cs));
        } else {
          WalkSkip(records, pending, visited, k);
          pending := pending - {k};
        }
      }
      WalkDone(records, pending, visited);
    }

    /** `GetAllConsensusStates`: every consensus state grouped by client:
        one group per client id, no group empty, and the entries of all
        groups, each under its own group's client id, are exactly one
        enumeration of the stored consensus states. */
    method GetAllConsensusStates() returns (groups: seq<ClientConsensusStates>, ghost visited: seq<ConsensusEntry>)
      requires Valid()
      ensures forall i, j | 0 <= i < j < |groups| :: groups[i].clientId != groups[j].clientId
      ensures forall i | 0 <= i < |groups| :: |groups[i].consensusStates| > 0
      ensures multiset(Flatten(groups)) == multiset(visited)
      ensures forall i | 0 <= i < |visited| :: Recorded(visited[i])
      ensures DistinctEntries(visited)
      ensures EntryKeys(visited) == consensusStates.Keys
      ensures |Flatten(groups)| == |consensusStates.Keys|
    {
      var entries := IterateConsensusStates((seen, clientId, cs) => false);
      visited := entries;
      groups := GroupByClient(entries);
      GroupedCount(groups, entries);
    }

    /** `IterateClients`: walks the stored paths, keeps those the client
        filter accepts, and hands each client id and state to the callback
        `stop`, together with the pairs handed over before it, until it
        answers true. Returns the pairs handed over, in order: each is a
        stored client, no client repeats, only the last may have stopped the
        walk, and a walk that did not stop saw every client. */
    method IterateClients(stop: (seq<(string, ClientState)>, string, ClientState) -> bool)
      returns (visited: seq<(string, ClientState)>)
      requires Valid()
      ensures forall i | 0 <= i < |visited| :: visited[i].0 in clientStates && clientStates[visited[i].0] == visited[i].1
      ensures forall i, j | 0 <= i < j < |visited| :: visited[i].0 != visited[j].0
      ensures forall i | 0 <= i < |visited| - 1 :: !stop(visited[..i], visited[i].0, visited[i].1)
      ensures (|visited| > 0 && stop(visited[..|visited| - 1], visited[|visited| - 1].0, visited[|visited| - 1].1))
              || ClientIds(visited) == clientStates.Keys
    {
      var clients := clientStates;
      var pending := StoredKeys();
      visited := [];
      while pending != {}
        invariant pending <= StoredKeys()
        invariant ClientsWalked(clients, pending, visited)
        invariant NoneStopped(stop, visited)
        decreases pending
      {
        var k :| k in pending;
        StoredKey(k);
        ClientEntryOfKey(k);
        var entry := ClientEntryOf(KeyOf(k));
        if entry.Some? {
          var clientId := entry.value;
          var clientState := clients[clientId];
          ClientWalkVisit(clients, pending, visited, k);
          var seen := visited;
          visited := visited + [(clientId, clientState)];
          pending := pending - {k};
          if stop(seen, clientId, clientState) {
            StoppedLast(stop, seen, (clientId, clientState));
            break;
          }
          NoneStoppedSnoc(stop, seen, (clientId, clientState));
        } else {
          ClientWalkSkip(clients, pending, visited, k);
          pending := pending - {k};
        }
      }
      ClientWalkDone(clients, pending, visited);
    }

    /** `GetAllGenesisClients` before its sort: every stored client, once,
        with its identifier. */
    method GetAllGenesisClients() returns (genClients: seq<IdentifiedClientState>)
      requires Valid()
      ensures forall i | 0 <= i < |genClients| ::
                GetClientState(genClients[i].clientId) == Some(genClients[i].clientState)
      ensures forall i, j | 0 <= i < j < |genClients| :: genClients[i].clientId != genClients[j].clientId
      ensures (set c | c in genClients :: c.clientId) == clientStates.Keys
    {
      var visited := IterateClients((seen, clientId, cs) => false);
      genClients := Identify(visited);
    }

    /** `GetAllClients`: every stored client state, once per client: the
        i-th state belongs to the i-th of an enumeration of the client ids. */
    method GetAllClients() returns (states: seq<ClientState>, ghost clientIds: seq<string>)
      requires Valid()
      ensures |states| == |clientIds|
      ensures forall i | 0 <= i < |states| :: GetClientState(clientIds[i]) == Some(states[i])
      ensures forall i, j | 0 <= i < j < |clientIds| :: clientIds[i] != clientIds[j]
      ensures (set id | id in clientIds) == clientStates.Keys
    {
      var visited := IterateClients((seen, clientId, cs) => false);
      states := [];
      clientIds := [];
      var i := 0;
      while i < |visited|
        invariant 0 <= i <= |visited|
        invariant |states| == |clientIds| == i
        invariant forall a | 0 <= a < i :: clientIds[a] == visited[a].0 && states[a] == visited[a].1
      {
        states := states + [visited[i].1];
        clientIds := clientIds + [visited[i].0];
        i := i + 1;
      }
      assert (set id | id in clientIds) == ClientIds(visited) by {
        assert forall id | id in clientIds :: exists a | 0 <= a < |visited| :: visited[a].0 == id;
      }
    }
  }
}
