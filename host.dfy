/** The client part of the ICS 24 (Host Requirements) path space:
    `clients/<clientID>/clientState` and
    `clients/<clientID>/consensusStates/<height>`, how the keeper renders
    a record's key into such a path, and how its two iteration filters read
    a path back by splitting it on `/`. */
module Host {
  import opened Outcomes
  import opened ClientTypes
  import Strings

  const KeyClientStorePrefix := "clients"
  const KeyClientState := "clientState"
  const KeyConsensusStatePrefix := "consensusStates"

  /** A client identifier usable as one path segment: it holds no `/`.
      Host identifier validation guarantees this for every identifier that
      reaches the client store. */
  predicate IsPathSegment(clientId: string)
  {
    '/' !in clientId
  }

  /** The record a store key addresses. */
  datatype Key =
    | ClientStateKey(clientId: string)
    | ConsensusStateKey(clientId: string, height: Height)

  /** `ClientStore`'s namespace: every record of one client lives under
      `clients/<clientID>/`. */
  function ClientStorePrefix(clientId: string): (prefix: string)
    ensures |prefix| == |KeyClientStorePrefix| + |clientId| + 2
    ensures KeyClientStorePrefix + "/" <= prefix && prefix[|prefix| - 1] == '/'
    ensures prefix[|KeyClientStorePrefix| + 1..|prefix| - 1] == clientId
  {
    KeyClientStorePrefix + "/" + clientId + "/"
  }

  /** The key inside the client's namespace (`host.ClientStateKey()`,
      `host.ConsensusStateKey(height)`). */
  function LocalKey(k: Key): (local: string)
    ensures k.ClientStateKey? <==> '/' !in local
    ensures k.ConsensusStateKey? ==> KeyConsensusStatePrefix + "/" <= local
  {
    match k
    case ClientStateKey(_) => KeyClientState
    case ConsensusStateKey(_, h) => KeyConsensusStatePrefix + "/" + HeightString(h)
  }

  /** The full path of a record: its client's prefix followed by its local key. */
  function KeyOf(k: Key): (path: string)
    ensures ClientStorePrefix(k.clientId) <= path
  {
    ClientStorePrefix(k.clientId) + LocalKey(k)
  }

  /** The consensus-state filter of `IterateConsensusStates`: exactly four
      `/`-separated segments, the third `consensusStates`; the client id is
      the second and the height is parsed from the fourth. */
  function ConsensusEntryOf(path: string): (entry: Option<(string, Height)>)
    ensures entry.Some? ==> IsPathSegment(entry.value.0)
  {
    var segments := Strings.Split(path, '/');
    if |segments| != 4 || segments[2] != KeyConsensusStatePrefix then None
    else
      match ParseHeight(segments[3])
      case Some(h) => Some((segments[1], h))
      case None => None
  }

  /** The client-state filter of `IterateClients`: the last `/`-separated
      segment is `clientState`; the client id is the second segment. */
  function ClientEntryOf(path: string): (clientId: Option<string>)
    ensures clientId.Some? ==> IsPathSegment(clientId.value)
  {
    var segments := Strings.Split(path, '/');
    if segments[|segments| - 1] != KeyClientState then None
    else if |segments| < 2 then None
    else Some(segments[1])
  }

  /** The record a path addresses, as the two filters read it. */
  function ParseKey(path: string): (k: Option<Key>)
    ensures k.Some? ==> IsPathSegment(k.value.clientId)
  {
    match ConsensusEntryOf(path)
    case Some((clientId, h)) => Some(ConsensusStateKey(clientId, h))
    case None =>
      match ClientEntryOf(path)
      case Some(clientId) => Some(ClientStateKey(clientId))
      case None => None
  }

  /** The segments of a client-state path. */
  lemma ClientStateSegments(clientId: string)
    requires IsPathSegment(clientId)
    ensures Strings.Split(KeyOf(ClientStateKey(clientId)), '/') == [KeyClientStorePrefix, clientId, KeyClientState]
  {
    var segments := [KeyClientStorePrefix, clientId, KeyClientState];
    assert Strings.Join(segments[1..], '/') == clientId + "/" + KeyClientState;
    assert Strings.Join(segments, '/') == KeyOf(ClientStateKey(clientId));
    assert '/' !in KeyClientStorePrefix && '/' !in KeyClientState;
    Strings.SplitOfJoin(segments, '/');
  }

  /** The segments of a consensus-state path. */
  lemma ConsensusStateSegments(clientId: string, h: Height)
    requires IsPathSegment(clientId)
    ensures Strings.Split(KeyOf(ConsensusStateKey(clientId, h)), '/')
         == [KeyClientStorePrefix, clientId, KeyConsensusStatePrefix, HeightString(h)]
  {
    HeightStringShape(h);
    SegmentsOfFour(KeyClientStorePrefix, clientId, KeyConsensusStatePrefix, HeightString(h));
  }

  /** Four `/`-free segments, laid out as a client prefix followed by a
      two-segment local key, split back into themselves. */
  lemma SegmentsOfFour(a: string, b: string, c: string, d: string)
    requires '/' !in a && '/' !in b && '/' !in c && '/' !in d
    ensures Strings.Split((a + "/" + b + "/") + (c + "/" + d), '/') == [a, b, c, d]
  {
    JoinOfFour(a, b, c, d);
    assert (a + "/" + b + "/") + (c + "/" + d) == a + "/" + b + "/" + c + "/" + d;
    Strings.SplitOfJoin([a, b, c, d], '/');
  }

  /** Joining four segments on `/` puts a `/` between each pair. */
  lemma JoinOfFour(a: string, b: string, c: string, d: string)
    ensures Strings.Join([a, b, c, d], '/') == a + "/" + b + "/" + c + "/" + d
  {
    var segments := [a, b, c, d];
    assert Strings.Join(segments[3..], '/') == d;
    assert Strings.Join(segments[2..], '/') == c + "/" + d;
    assert Strings.Join(segments[1..], '/') == b + "/" + c + "/" + d;
  }

  /** The consensus filter accepts exactly the consensus-state paths, and
      reads back their client id and height; it rejects client-state paths. */
  lemma ConsensusEntryOfKey(k: Key)
    requires IsPathSegment(k.clientId)
    ensures ConsensusEntryOf(KeyOf(k)) ==
      if k.ConsensusStateKey? then Some((k.clientId, k.height)) else None
  {
    match k
    case ClientStateKey(id) =>
      ClientStateSegments(id);
    case ConsensusStateKey(id, h) =>
      ConsensusStateSegments(id, h);
      ParseHeightOfHeightString(h);
  }

  /** The client filter accepts exactly the client-state paths, and reads
      back their client id; it rejects consensus-state paths, whose last
      segment is a height. */
  lemma ClientEntryOfKey(k: Key)
    requires IsPathSegment(k.clientId)
    ensures ClientEntryOf(KeyOf(k)) ==
      if k.ClientStateKey? then Some(k.clientId) else None
  {
    match k
    case ClientStateKey(id) =>
      ClientStateSegments(id);
    case ConsensusStateKey(id, h) =>
      ConsensusStateSegments(id, h);
      HeightStringShape(h);
      assert '-' !in KeyClientState;
  }

  /** Reading a record's path back gives the record's key. */
  lemma ParseKeyOfKeyOf(k: Key)
    requires IsPathSegment(k.clientId)
    ensures ParseKey(KeyOf(k)) == Some(k)
  {
    ConsensusEntryOfKey(k);
    ClientEntryOfKey(k);
  }

  /** Distinct records have distinct paths. */
  lemma KeyOfInjective(k1: Key, k2: Key)
    requires IsPathSegment(k1.clientId) && IsPathSegment(k2.clientId)
    requires KeyOf(k1) == KeyOf(k2)
    ensures k1 == k2
  {
    ParseKeyOfKeyOf(k1);
    ParseKeyOfKeyOf(k2);
  }

  /** Client namespaces are isolated: no path lies under the prefixes of two
      different clients. */
  lemma ClientStoresIsolated(a: string, b: string, path: string)
    requires IsPathSegment(a) && IsPathSegment(b)
    requires ClientStorePrefix(a) <= path && ClientStorePrefix(b) <= path
    ensures a == b
  {
    var n := |KeyClientStorePrefix| + 1;
    assert forall i | 0 <= i < |a| :: a[i] == path[n + i] by {
      assert forall i | 0 <= i < |a| :: ClientStorePrefix(a)[n + i] == a[i];
    }
    assert forall i | 0 <= i < |b| :: b[i] == path[n + i] by {
      assert forall i | 0 <= i < |b| :: ClientStorePrefix(b)[n + i] == b[i];
    }
    assert path[n + |a|] == '/' by {
      assert ClientStorePrefix(a)[n + |a|] == '/';
    }
    assert path[n + |b|] == '/' by {
      assert ClientStorePrefix(b)[n + |b|] == '/';
    }
    assert |a| == |b|;
  }
}
