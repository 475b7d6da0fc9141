/** The 02-client record types: heights, client identifiers and the values
    the client store holds. Heights and sequences are Go `uint64`s. */
module ClientTypes {
  import opened Outcomes
  import Strings

  const MaxUint64: int := 0xffff_ffff_ffff_ffff

  type Uint64 = x: int | 0 <= x <= MaxUint64

  /** `uint64` increment: wraps to 0 after the largest value. */
  function Increment(x: Uint64): (y: Uint64)
    ensures x < MaxUint64 ==> y == x + 1
    ensures x == MaxUint64 ==> y == 0
  {
    (x + 1) % (MaxUint64 + 1)
  }

  /** A height is a (revision number, revision height) pair. */
  datatype Height = Height(revisionNumber: Uint64, revisionHeight: Uint64)

  const ZeroHeight := Height(0, 0)

  /** Lexicographic order: revision number first, then revision height. */
  predicate HeightLT(a: Height, b: Height)
  {
    a.revisionNumber < b.revisionNumber
    || (a.revisionNumber == b.revisionNumber && a.revisionHeight < b.revisionHeight)
  }

  /** `Height.String()`: `"<revision number>-<revision height>"`, each part
      a non-empty run of decimal digits denoting its field. */
  function HeightString(h: Height): (s: string)
    ensures
      exists number, height :: s == number + "-" + height
        && |number| > 0 && Strings.IsDigits(number) && Strings.DigitsValue(number) == h.revisionNumber
        && |height| > 0 && Strings.IsDigits(height) && Strings.DigitsValue(height) == h.revisionHeight
  {
    Strings.DigitsValueOfNatToString(h.revisionNumber);
    Strings.DigitsValueOfNatToString(h.revisionHeight);
    Strings.NatToString(h.revisionNumber) + "-" + Strings.NatToString(h.revisionHeight)
  }

  /** `strconv.ParseUint(s, 10, 64)`: decimal digits only, no sign, within `uint64`. */
  function ParseUint64(s: string): (r: Option<Uint64>)
    ensures r.Some? ==> Strings.IsDigits(s) && |s| > 0 && r.value == Strings.DigitsValue(s)
    ensures |s| > 0 && Strings.IsDigits(s) && Strings.DigitsValue(s) <= MaxUint64 ==> r.Some?
  {
    if |s| > 0 && Strings.IsDigits(s) && Strings.DigitsValue(s) <= MaxUint64
    then Some(Strings.DigitsValue(s))
    else None
  }

  /** `ParseUint64` reads back the decimal form of every `uint64`. */
  lemma ParseUint64OfNatToString(n: Uint64)
    ensures ParseUint64(Strings.NatToString(n)) == Some(n)
  {
    Strings.DigitsValueOfNatToString(n);
  }

  /** `ParseUint64` refuses the decimal form of every number above the `uint64` range. */
  lemma ParseUint64RejectsOverflow(n: nat)
    requires n > MaxUint64
    ensures ParseUint64(Strings.NatToString(n)) == None
  {
    Strings.DigitsValueOfNatToString(n);
  }

  /** `ParseHeight`: exactly two `-`-separated parts, each a `uint64`. */
  function ParseHeight(s: string): (r: Option<Height>)
    ensures r.Some? ==>
      exists number, height :: s == number + "-" + height && '-' !in number && '-' !in height
        && ParseUint64(number) == Some(r.value.revisionNumber) && ParseUint64(height) == Some(r.value.revisionHeight)
  {
    var parts := Strings.Split(s, '-');
    assert |parts| == 2 ==> s == parts[0] + "-" + parts[1] by {
      if |parts| == 2 {
        assert parts[1..] == [parts[1]];
        assert Strings.Join(parts[1..], '-') == parts[1];
        assert Strings.Join(parts, '-') == parts[0] + ['-'] + parts[1];
      }
    }
    if |parts| != 2 then None
    else
      match (ParseUint64(parts[0]), ParseUint64(parts[1]))
      case (Some(number), Some(height)) => Some(Height(number, height))
      case _ => None
  }

  /** Decimal digits contain neither path nor revision separators. */
  lemma DigitsHaveNoSeparator(s: string)
    requires Strings.IsDigits(s)
    ensures '/' !in s && '-' !in s
  {
    assert forall i | 0 <= i < |s| :: Strings.IsDigit(s[i]);
  }

  /** A height string is made of digits and the one `-` between them. */
  lemma HeightStringShape(h: Height)
    ensures '/' !in HeightString(h)
    ensures '-' in HeightString(h)
  {
    var n := Strings.NatToString(h.revisionNumber);
    var m := Strings.NatToString(h.revisionHeight);
    assert HeightString(h)[|n|] == '-';
    DigitsHaveNoSeparator(n);
    DigitsHaveNoSeparator(m);
  }

  /** Parsing the string form of a height gives the height back. */
  lemma ParseHeightOfHeightString(h: Height)
    ensures ParseHeight(HeightString(h)) == Some(h)
  {
    var n := Strings.NatToString(h.revisionNumber);
    var m := Strings.NatToString(h.revisionHeight);
    DigitsHaveNoSeparator(n);
    DigitsHaveNoSeparator(m);
    assert Strings.Join([n, m], '-') == HeightString(h);
    Strings.SplitOfJoin([n, m], '-');
    Strings.DigitsValueOfNatToString(h.revisionNumber);
    Strings.DigitsValueOfNatToString(h.revisionHeight);
  }

  /** `Height.String()` is `%d-%d`: each part is the shortest decimal form
      of its field, so a part starts with `0` only when it is `"0"`. */
  lemma HeightStringCanonical(h: Height)
    ensures
      exists number, height :: HeightString(h) == number + "-" + height
        && |number| > 0 && Strings.IsDigits(number) && Strings.DigitsValue(number) == h.revisionNumber
        && (number[0] == '0' ==> |number| == 1)
        && |height| > 0 && Strings.IsDigits(height) && Strings.DigitsValue(height) == h.revisionHeight
        && (height[0] == '0' ==> |height| == 1)
  {
    var number := Strings.NatToString(h.revisionNumber);
    var height := Strings.NatToString(h.revisionHeight);
    Strings.DigitsValueOfNatToString(h.revisionNumber);
    Strings.DigitsValueOfNatToString(h.revisionHeight);
    assert HeightString(h) == number + "-" + height;
  }

  /** `FormatClientIdentifier`: `"<client type>-<sequence>"`. */
  function FormatClientIdentifier(clientType: string, sequence: Uint64): (clientId: string)
    ensures clientType + "-" <= clientId
    ensures var digits := clientId[|clientType| + 1..];
      |digits| > 0 && Strings.IsDigits(digits) && Strings.DigitsValue(digits) == sequence
    ensures clientId[|clientType| + 1] == '0' ==> sequence == 0 && |clientId| == |clientType| + 2
  {
    Strings.DigitsValueOfNatToString(sequence);
    var clientId := clientType + "-" + Strings.NatToString(sequence);
    assert clientId[|clientType| + 1..] == Strings.NatToString(sequence);
    clientId
  }

  /** For one client type, distinct sequences give distinct identifiers. */
  lemma FormatClientIdentifierInjective(clientType: string, a: Uint64, b: Uint64)
    requires FormatClientIdentifier(clientType, a) == FormatClientIdentifier(clientType, b)
    ensures a == b
  {
    var prefix := clientType + "-";
    var ida, idb := FormatClientIdentifier(clientType, a), FormatClientIdentifier(clientType, b);
    assert Strings.NatToString(a) == ida[|prefix|..];
    assert Strings.NatToString(b) == idb[|prefix|..];
    Strings.NatToStringInjective(a, b);
  }

  /** The sequence a client identifier was generated from and the one after
      it give different identifiers, so two successive allocations never
      collide. */
  lemma SuccessiveIdentifiersDistinct(clientType: string, sequence: Uint64)
    ensures FormatClientIdentifier(clientType, sequence)
         != FormatClientIdentifier(clientType, Increment(sequence))
  {
    if FormatClientIdentifier(clientType, sequence) == FormatClientIdentifier(clientType, Increment(sequence)) {
      FormatClientIdentifierInjective(clientType, sequence, Increment(sequence));
    }
  }

  /** A generated identifier contains no `/` when its client type has none,
      so it can serve as one segment of a store path. */
  lemma FormatClientIdentifierIsSegment(clientType: string, sequence: Uint64)
    requires '/' !in clientType
    ensures '/' !in FormatClientIdentifier(clientType, sequence)
  {
    DigitsHaveNoSeparator(Strings.NatToString(sequence));
  }

  /** A trusted snapshot of the counterparty at one height. Times are
      nanoseconds. */
  datatype ConsensusState = ConsensusState(timestamp: int, root: seq<bv8>, nextValidatorsHash: seq<bv8>)

  /** A client state as 02-client sees it: its client type and latest height;
      the client-type-specific fields are opaque to this layer. */
  datatype ClientState = ClientState(clientType: string, latestHeight: Height, fields: seq<bv8>)

  datatype ConsensusStateWithHeight = ConsensusStateWithHeight(height: Height, consensusState: ConsensusState)

  /** One client's consensus states, as exported at genesis. */
  datatype ClientConsensusStates = ClientConsensusStates(clientId: string, consensusStates: seq<ConsensusStateWithHeight>)

  datatype IdentifiedClientState = IdentifiedClientState(clientId: string, clientState: ClientState)
}
