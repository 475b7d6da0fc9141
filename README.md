# IBC client keeper and dymint misbehaviour handling, in Dafny

This project models two parts of an IBC (Inter-Blockchain Communication) light-client core:

- **The 02-client keeper.** It stores each light client's client state and its consensus states under the ICS 24 paths `clients/<clientID>/clientState` and `clients/<clientID>/consensusStates/<revision>-<height>`. It also allocates client identifiers `"<type>-<sequence>"` from a `uint64` counter, and enumerates the store by splitting each stored path on `/`.
- **The dymint light client's misbehaviour check.** It decides whether two conflicting headers prove that the counterparty chain misbehaved. There are two kinds of conflict:
  - two blocks with different hashes at one height (a fork);
  - a higher block whose time is not later than a lower block's (a violation of monotonic time).

  Each header must also pass its own check against its trusted consensus state. When all of this holds, the client state comes back frozen at the sentinel height `{0,1}`.

Layout:

- `outcomes.dfy` holds `Option`, `Result` and `Outcome`.
- `strings.dfy` holds Go's `strings.Split`/`strings.Join` on one separator character, plus decimal rendering and parsing.
- `client_types.dfy` holds heights, their `"%d-%d"` form and `ParseHeight`, `FormatClientIdentifier`, and the stored record types.
- `host.dfy` holds the store paths, the client namespace prefix, and the two iteration filters that read a path back.
- `keeper.dfy` holds the keeper. It is a class whose fields are the counter and the two record maps:
  - methods change those fields;
  - the iteration methods loop over the stored keys.
- `misbehaviour_handle.dfy` holds the misbehaviour check as pure functions, with lemmas.

The store's iteration order is bytewise key order. The model leaves it open: a loop takes any remaining key with `:|`. Every property proved about iteration therefore holds for every order.

Three behaviours of the code, which the model follows as written:

- **No signature quorum.** The code verifies no signature quorum in the misbehaviour check. It only requires each commit to decode (`modules/light-clients/01-dymint/types/misbehaviour_handle.go:105`).
- **Header order.** At unequal heights the code checks the headers in the order they were submitted: header 1 must not be after header 2. It does not pick out the higher header. `DymintMisbehaviour.AcceptedEvidenceConflicts` shows that this is the intended rule once header 1 is the higher one, as the upstream structural check ensures.
- **Frozen clients.** The code does not refuse an already frozen client in this check. The source leaves that to the 02-client status check (`misbehaviour_handle.go:36`).

## Model

| member | source | states |
|---|---|---|
| Strings.Split | modules/core/02-client/keeper/keeper.go:136 | splitting on `/` gives at least one piece, no piece contains the separator, and joining the pieces back gives the path |
| Strings.SplitOfJoin | modules/core/02-client/keeper/keeper.go:136-142 | splitting a join of separator-free pieces gives exactly those pieces back |
| Strings.SplitSeparatorFree | modules/core/02-client/keeper/keeper.go:314-315 | a string without the separator splits into itself alone |
| Strings.SplitAfterPiece | modules/light-clients/01-dymint/types/misbehaviour_handle.go:119-121 | a separator-free piece followed by the separator is split off as the first piece |
| Strings.SplitFirstPiece | modules/light-clients/01-dymint/types/misbehaviour_handle.go:119-121 | the first piece of `strings.Split` is a prefix of the input, and either it is all of the input or the separator follows it |
| Strings.NatToString | modules/core/02-client/keeper/keeper.go:65 | `%d` of a number is a non-empty string of decimal digits whose first digit is `0` only when the number is 0 and the string is exactly `"0"` |
| Strings.DigitsValueOfNatToString | modules/core/02-client/keeper/keeper.go:142 | reading back the decimal form of a number gives the number |
| Strings.NatToStringInjective | modules/core/02-client/keeper/keeper.go:63-70 | distinct numbers have distinct decimal forms |
| ClientTypes.ParseUint64 | modules/core/02-client/keeper/keeper.go:142 | a part of a height string is accepted only if it is a non-empty run of decimal digits, and then its value is the number the digits denote; every such run whose value fits in `uint64` is accepted |
| ClientTypes.ParseUint64OfNatToString | modules/core/02-client/keeper/keeper.go:142 | the decimal form of every `uint64` parses back to that number |
| ClientTypes.ParseUint64RejectsOverflow | modules/core/02-client/keeper/keeper.go:142 | the decimal form of any number above the `uint64` range is refused |
| ClientTypes.HeightString | modules/core/02-client/keeper/keeper.go:93-106 | `Height.String()` is two non-empty digit runs joined by `-`, denoting the revision number and the revision height; ClientTypes.HeightStringCanonical adds that neither part has a leading zero, ClientTypes.HeightStringShape keeps it one path segment and ClientTypes.ParseHeightOfHeightString parses it back |
| ClientTypes.HeightStringCanonical | modules/core/02-client/keeper/keeper.go:93-106 | each part of a height's string form is the shortest decimal form of its field: it starts with `0` only when it is `"0"` |
| ClientTypes.ParseHeight | modules/core/02-client/keeper/keeper.go:142 | an accepted height string is two `-`-free parts joined by `-`, each parsing as the height's revision number and revision height |
| ClientTypes.Increment | modules/core/02-client/keeper/keeper.go:67 | `nextClientSeq++` adds one below the largest `uint64` and wraps the largest to 0 |
| ClientTypes.FormatClientIdentifier | modules/core/02-client/keeper/keeper.go:65 | the identifier is the client type and `-` followed by a non-empty digit string whose value is the sequence, whose first digit is `0` only when the sequence is 0 and the digit string is exactly `"0"` |
| ClientTypes.DigitsHaveNoSeparator | modules/core/02-client/keeper/keeper.go:136-142 | decimal digits contain neither `/` nor `-` |
| ClientTypes.HeightStringShape | modules/core/02-client/keeper/keeper.go:136-142 | a height's string form contains a `-` and no `/`, so it stays one path segment |
| ClientTypes.ParseHeightOfHeightString | modules/core/02-client/keeper/keeper.go:142 | `MustParseHeight` of a height's string form gives the height back |
| ClientTypes.FormatClientIdentifierInjective | modules/core/02-client/keeper/keeper.go:63-70 | for one client type, identifiers from different sequences differ |
| ClientTypes.SuccessiveIdentifiersDistinct | modules/core/02-client/keeper/keeper.go:63-70 | the identifier from a sequence differs from the one the incremented (wrapping) sequence gives |
| ClientTypes.FormatClientIdentifierIsSegment | modules/core/02-client/keeper/keeper.go:63-70 | a generated identifier contains no `/` when its client type has none |
| Host.ClientStorePrefix | modules/core/02-client/keeper/keeper.go:339-342 | the prefix is `clients/`, the client id and a trailing `/`, with the client id exactly between them |
| Host.ConsensusEntryOf | modules/core/02-client/keeper/keeper.go:136-142 | the consensus filter reads a client id that is a single path segment; with Host.ConsensusEntryOfKey it accepts exactly consensus-state paths |
| Host.ClientEntryOf | modules/core/02-client/keeper/keeper.go:314-322 | the client filter reads a client id that is a single path segment; with Host.ClientEntryOfKey it accepts exactly client-state paths |
| Host.ParseKey | modules/core/02-client/keeper/keeper.go:130-151 | a key read back from a path names a single-segment client id; Host.ParseKeyOfKeyOf makes it the inverse of Host.KeyOf |
| Host.LocalKey | modules/core/02-client/keeper/keeper.go:75-106 | a client-state key is the one segment without `/`, a consensus-state key starts with `consensusStates/`; Host.ClientStateSegments and Host.ConsensusStateSegments give the full paths' segments |
| Host.KeyOf | modules/core/02-client/keeper/keeper.go:337-342 | every record's path starts with its client's prefix `clients/<clientID>/` |
| Host.ClientStateSegments | modules/core/02-client/keeper/keeper.go:314-322 | a client-state path splits into `clients`, the client id and `clientState` |
| Host.ConsensusStateSegments | modules/core/02-client/keeper/keeper.go:136-141 | a consensus-state path splits into `clients`, the client id, `consensusStates` and the height string |
| Host.ConsensusEntryOfKey | modules/core/02-client/keeper/keeper.go:136-142 | the consensus filter accepts exactly consensus-state paths, reads back their client id and height, and skips client-state paths |
| Host.ClientEntryOfKey | modules/core/02-client/keeper/keeper.go:314-322 | the client filter accepts exactly client-state paths, reads back their client id, and skips consensus-state paths |
| Host.ParseKeyOfKeyOf | modules/core/02-client/keeper/keeper.go:130-151 | the two filters together read every record's path back to the record's key |
| Host.KeyOfInjective | modules/core/02-client/keeper/keeper.go:337-342 | distinct records are stored under distinct paths |
| Host.ClientStoresIsolated | modules/core/02-client/keeper/keeper.go:337-342 | no path lies under the namespaces of two different clients |
| ClientKeeper.DistinctEntriesCount | modules/core/02-client/keeper/keeper.go:207-230 | an enumeration without repeated (client, height) keys has as many entries as it has keys |
| ClientKeeper.GroupByClient | modules/core/02-client/keeper/keeper.go:209-227 | grouping an enumeration by client id gives groups with distinct client ids, none empty, holding exactly the enumerated entries |
| ClientKeeper.AddToGroup | modules/core/02-client/keeper/keeper.go:212-227 | one step of the grouping callback keeps every group indexed at its position and adds exactly the new entry |
| ClientKeeper.Identify | modules/core/02-client/keeper/keeper.go:156-158 | the genesis list pairs each enumerated client state with its own identifier, in order, and covers exactly the enumerated ids |
| ClientKeeper.ValidateSelfClient | modules/core/02-client/keeper/keeper.go:274-283 | a client type other than this chain's is rejected with both types; a matching one gets the self client's own verdict at the staking unbonding time |
| ClientKeeper.MismatchIgnoresSelfRule | modules/core/02-client/keeper/keeper.go:277-281 | on a type mismatch the verdict is a rejection whatever the self client's rule is |
| ClientKeeper.Keeper.GetClientState | modules/core/02-client/keeper/keeper.go:72-82 | a client state is found exactly when its `clients/<clientID>/clientState` record is stored, and it is that record |
| ClientKeeper.Keeper.GetClientConsensusState | modules/core/02-client/keeper/keeper.go:90-100 | a consensus state is found exactly when its `clients/<clientID>/consensusStates/<height>` record is stored, and it is that record |
| ClientKeeper.Keeper.GetNextClientSequence | modules/core/02-client/keeper/keeper.go:109-118 | returns the stored counter; a missing counter is fatal, so it is a precondition |
| ClientKeeper.Keeper.SetNextClientSequence | modules/core/02-client/keeper/keeper.go:120-125 | the counter becomes the given sequence and nothing else changes |
| ClientKeeper.Keeper.GenerateClientIdentifier | modules/core/02-client/keeper/keeper.go:62-70 | the identifier is formatted from the old counter, the counter becomes its `uint64` successor, and the next identifier differs from this one |
| ClientKeeper.Keeper.SetClientState | modules/core/02-client/keeper/keeper.go:72-88 | `GetClientState` afterwards returns the written state, every other client's state is unchanged, and the well-formedness of ids is kept |
| ClientKeeper.Keeper.SetClientConsensusState | modules/core/02-client/keeper/keeper.go:90-107 | `GetClientConsensusState` afterwards returns the written state at that client and height, every other record is unchanged, and the well-formedness of ids is kept |
| ClientKeeper.Keeper.HasClientConsensusState | modules/core/02-client/keeper/keeper.go:232-237 | holds exactly when `GetClientConsensusState` finds a record |
| ClientKeeper.Keeper.GetLatestClientConsensusState | modules/core/02-client/keeper/keeper.go:239-246 | nothing without a client state, otherwise the consensus state at the client state's latest height |
| ClientKeeper.Keeper.ClientConsensusStore | modules/core/02-client/keeper/keeper.go:337-342 | one client's view of consensus states holds exactly that client's records and agrees with the keeper's lookups |
| ClientKeeper.Keeper.IterateConsensusStates | modules/core/02-client/keeper/keeper.go:127-151 | the callback, offered each entry with the entries before it, sees only stored consensus states, each at most once; only the last call may have returned true; a walk that never stopped saw every stored consensus state |
| ClientKeeper.Keeper.GetAllConsensusStates | modules/core/02-client/keeper/keeper.go:207-230 | one non-empty group per client id, and the groups together hold exactly one enumeration of all stored consensus states, each under its own client id |
| ClientKeeper.Keeper.IterateClients | modules/core/02-client/keeper/keeper.go:305-326 | the callback, offered each client with the clients before it, sees only stored client states with their ids, no client twice; only the last call may have returned true; a walk that never stopped saw every client |
| ClientKeeper.Keeper.GetAllGenesisClients | modules/core/02-client/keeper/keeper.go:153-162 | every stored client exactly once, each paired with its own identifier |
| ClientKeeper.Keeper.GetAllClients | modules/core/02-client/keeper/keeper.go:328-335 | every stored client state exactly once, in the order of an enumeration of the client ids |
| DymintMisbehaviour.Sub | modules/light-clients/01-dymint/types/misbehaviour_handle.go:111 | `time.Sub` is the exact difference inside the `Duration` range and saturates at either bound outside it |
| DymintMisbehaviour.BlockIDFromProto | modules/light-clients/01-dymint/types/misbehaviour_handle.go:41-48 | a block id yields its hash exactly when it decodes |
| DymintMisbehaviour.ChainIdPrefix | modules/light-clients/01-dymint/types/misbehaviour_handle.go:119-121 | the revision-stripped chain id is a `-`-free prefix of the chain id, either all of it or followed by `-` |
| DymintMisbehaviour.ChainIdPrefixOfRevision | modules/light-clients/01-dymint/types/misbehaviour_handle.go:119-121 | stripping `name-revision` gives `name` |
| DymintMisbehaviour.ChainIdPrefixWithoutRevision | modules/light-clients/01-dymint/types/misbehaviour_handle.go:119-121 | a chain id without `-` is kept whole |
| DymintMisbehaviour.ExpiredIsAgeAtLeastPeriod | modules/light-clients/01-dymint/types/misbehaviour_handle.go:110-117 | for any trusting period above the smallest duration, the saturated check equals "age at least the trusting period" on unbounded integers |
| DymintMisbehaviour.CheckMisbehaviourHeader | modules/light-clients/01-dymint/types/misbehaviour_handle.go:100-131 | the commit is checked first, then expiry, then the chain name; each error is returned exactly when its condition holds and every earlier check passed |
| DymintMisbehaviour.CheckConflict | modules/light-clients/01-dymint/types/misbehaviour_handle.go:38-60 | passes exactly for: equal heights with both block ids decodable and their hashes different, or unequal heights with header 1 not after header 2 |
| DymintMisbehaviour.CheckMisbehaviourAndUpdateState | modules/light-clients/01-dymint/types/misbehaviour_handle.go:17-98 | a successful result is the input client state frozen at `{0,1}` |
| DymintMisbehaviour.FreezesExactlyOnValidEvidence | modules/light-clients/01-dymint/types/misbehaviour_handle.go:25-98 | the client freezes if and only if the evidence is dymint evidence, the headers conflict and both headers verify against their trusted states; only the frozen height changes |
| DymintMisbehaviour.SameBlockRejected | modules/light-clients/01-dymint/types/misbehaviour_handle.go:50-53 | equal heights with equal block hashes are rejected as invalid misbehaviour |
| DymintMisbehaviour.MonotonicTimeRejected | modules/light-clients/01-dymint/types/misbehaviour_handle.go:54-59 | at unequal heights, header 1 strictly after header 2 is rejected; equal or earlier times pass the conflict check |
| DymintMisbehaviour.MissingTrustedStateRejected | modules/light-clients/01-dymint/types/misbehaviour_handle.go:67-77 | a missing trusted consensus state rejects the evidence, and header 1's is reported first |
| DymintMisbehaviour.Header1VerifiedFirst | modules/light-clients/01-dymint/types/misbehaviour_handle.go:84-93 | a failing header 1 is reported with its own error whatever header 2 is |
| DymintMisbehaviour.AcceptedEvidenceConflicts | modules/light-clients/01-dymint/types/misbehaviour_handle.go:38-60 | with header 1 not lower than header 2, accepted evidence is a fork at one height or a higher block that is not later in time |
| DymintMisbehaviour.ReadsOnlyTrustedStates | modules/light-clients/01-dymint/types/misbehaviour_handle.go:64-77 | the verdict depends on the client store only at the two trusted heights |
| DymintMisbehaviour.TrustingPeriodBoundary | modules/light-clients/01-dymint/types/misbehaviour_handle.go:110-117 | an age equal to the trusting period is expired; one nanosecond less is not |
| DymintMisbehaviour.ChainCheckIgnoresRevision | modules/light-clients/01-dymint/types/misbehaviour_handle.go:119-128 | a header from another revision of the client's chain passes the chain check |
| DymintMisbehaviour.ChainIdRevisionExample | modules/light-clients/01-dymint/types/misbehaviour_handle.go:119-128 | `gaia-1` and `gaia-2` strip to the same name `gaia` |
| DymintMisbehaviour.ChainIdOtherChainExample | modules/light-clients/01-dymint/types/misbehaviour_handle.go:119-128 | `ethermint` and `gaia-1` strip to different names |

## Left out

- `GetSelfConsensusState` is left out. It checks that the height is a `types.Height` whose revision matches the chain id's revision, answers not-found when the staking keeper has no historical info at that height, marshals the historical header and builds the state through the self client. The staking keeper, the header codec and the self client are not part of this model.
- Logger and the four upgrade pass-throughs (`GetUpgradePlan`, `GetUpgradedClient`, `GetUpgradedConsensusState`, `SetUpgradedConsensusState`) are left out. They only forward to the logger or the upgrade keeper, whose code is not part of this model.
- `GetAllClientMetadata` and `SetAllClientMetadata` are left out. Metadata is exported by each client type's own `ExportMetadata`, and is stored under arbitrary client-defined keys. The model's store holds only client-state and consensus-state records.
- Encoding is left out. This covers codec marshalling of stored records, the big-endian encoding of the counter, and the panics of `MustUnmarshal*`. Records are stored as values.
- The store backend is left out: the `sdk.Context` and the byte order of the prefix iterator. Iteration may visit keys in any order.
- ClientKeeper.Keeper.GetAllGenesisClients: does not model the final `Sort()` by client identifier (the `IdentifiedClientStates` sort is not part of this model), so the result is in iteration order.
- ClientKeeper.Keeper.GetAllConsensusStates: does not model the final `Sort()` of the groups (the sort is not part of this model), so groups and their entries are in iteration order.
- ClientKeeper.Keeper.IterateConsensusStates, ClientKeeper.Keeper.IterateClients: a callback is a pure function of the entry and the entries handed over before it. It decides only whether to stop. Effects of a Go closure on captured state are not modelled. The exports (`GetAllConsensusStates`, `GetAllGenesisClients`, `GetAllClients`) replay their callbacks' appends over the returned sequence after the walk.
- ClientKeeper.Keeper.IterateConsensusStates: requires every stored client id to be free of `/`. Host identifier validation guarantees this. Other ids would make the source's filter misread paths, and the model does not cover that.
- ClientKeeper.Keeper.IterateClients: requires `/`-free client ids for the same reason. With such ids the index panic in the source (a path whose only segment is `clientState`) cannot arise. `Host.ClientEntryOf` answers None there.
- Host.ConsensusEntryOf: an unparsable height panics in the source (`MustParseHeight`). The model answers None. No stored path can contain one.
- The Tendermint/dymint commit and block-id decoders (`CommitFromProto`, `BlockIDFromProto`) are left out. Each is a `wellFormed` flag on the decoded value. No signature or validator-set check is made, because the source makes none. The two flags are independent in the model, although the Tendermint decoder decodes a commit's block id first, so a commit whose block id is malformed never decodes. The model therefore also admits inputs the source cannot produce; no verdict on an input the source can produce depends on this.
- Header heights are a field of the header, because `Header.GetHeight` is not part of this model.
- The client store's reads in the misbehaviour check are modelled as a map from heights to decoded consensus states. `GetConsensusState`'s decode error of a malformed record is not modelled.
- The client types, heights and path formats of `02-client/types` and `24-host` are restated here from their use in the keeper. Those packages are not part of this model.
- Block times, `ctx.BlockTime()` and consensus timestamps are integers of nanoseconds passed in as parameters. Times before or after the range of Go's `time.Time` are not distinguished.
