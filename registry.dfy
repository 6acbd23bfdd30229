/** The version registry: the single string stored under the key `V:AND:E`,
    `"ANNOUNCE:<dateSign>_<counter>,<expire>"`, the helpers that take it apart,
    and the rule that picks the next version when the store rotates. */
module Registry {
  import opened Wrappers
  import opened Text

  /** Prefix of every version key; stripped before a version id is shown to clients. */
  const AnnouncePrefix: string := "ANNOUNCE:"
  /** Capacity of one version's announcement list. */
  const MaxCount: nat := 30
  /** Default lifetime of a version, one week in seconds. */
  const ExpireSeconds: nat := 604800

  /** A version: the calendar date sign it was created on, its sequence counter
      within that date, and its absolute expiry in epoch seconds. */
  datatype Version = Version(dateSign: string, counter: nat, expire: nat)

  /** What the locale date string can be: it never holds the three characters
      the registry format uses as separators. */
  predicate IsDateSign(d: string)
  {
    ',' !in d && ':' !in d && '_' !in d
  }

  /** The version id clients see: `<dateSign>_<counter>`. */
  function ClientId(v: Version): string
  {
    v.dateSign + "_" + NatToString(v.counter)
  }

  /** The store key of the version's list: `ANNOUNCE:<dateSign>_<counter>`. */
  function VersionKey(v: Version): string
  {
    AnnouncePrefix + ClientId(v)
  }

  /** The registry text written on rotation: `util.format('%s%s_%d,%d', ...)`. */
  function RegistryText(v: Version): string
  {
    VersionKey(v) + "," + NatToString(v.expire)
  }

  /** `vAndE.split(',')[0]`: the version key part of a registry text. */
  function VersionKeyOf(vAndE: string): (r: string)
    ensures ',' !in r
  {
    Split(vAndE, ',')[0]
  }

  /** `vAndE.split(',')[1]`: the expiry part, as text (undefined when absent). */
  function ExpireTextOf(vAndE: string): (r: Option<string>)
    ensures r.Some? ==> ',' !in r.value
  {
    Field(Split(vAndE, ','), 1)
  }

  /** `+vAndE.split(',')[1]`: the expiry as a number (None is NaN). */
  function ExpireOf(vAndE: string): Option<nat>
  {
    ToNumber(ExpireTextOf(vAndE))
  }

  /** `serverVersion.split(':')[1]` for a non-empty key, null for an empty one. */
  function ClientVersion(serverVersion: string): (r: Option<string>)
    ensures r.Some? ==> ':' !in r.value
  {
    if serverVersion == "" then None else Field(Split(serverVersion, ':'), 1)
  }

  /** `key.split(':')[1].split('_')[0]`; None where the source would throw
      because the key holds no `:`. */
  function DateSignOf(key: string): Option<string>
  {
    match Field(Split(key, ':'), 1)
    case None => None
    case Some(f) => Some(Split(f, '_')[0])
  }

  /** `+key.split('_')[1]` (None is NaN). */
  function CounterOf(key: string): Option<nat>
  {
    ToNumber(Field(Split(key, '_'), 1))
  }

  /** The counter the rotation computes from the old registry text: 1 when there
      is none or its date sign differs, otherwise the old counter plus one
      (None is NaN). */
  function NextCounter(oldVAndE: Option<string>, dateSign: string): (r: Option<nat>)
    requires oldVAndE.Some? ==> DateSignOf(VersionKeyOf(oldVAndE.value)).Some?
    ensures r.Some? ==> r.value >= 1
  {
    match oldVAndE
    case None => Some(1)
    case Some(text) =>
      var oldKey := VersionKeyOf(text);
      if DateSignOf(oldKey) == Some(dateSign) then
        match CounterOf(oldKey)
        case None => None
        case Some(c) => Some(c + 1)
      else Some(1)
  }

  /** The reference rule for the next version: same date sign continues the
      counter, a new date sign (or no previous version) restarts it at 1. */
  function NextVersion(prev: Option<Version>, dateSign: string, expire: nat): Version
  {
    Version(dateSign, if prev.Some? && prev.value.dateSign == dateSign then prev.value.counter + 1 else 1, expire)
  }

  /** The version key holds no `,`, so it survives the registry's split intact,
      and it starts with the prefix. */
  lemma VersionKeyShape(v: Version)
    requires IsDateSign(v.dateSign)
    ensures ',' !in VersionKey(v) && ',' !in ClientId(v) && ':' !in ClientId(v)
    ensures |AnnouncePrefix| <= |VersionKey(v)| && VersionKey(v)[..|AnnouncePrefix|] == AnnouncePrefix
  {
  }

  /** Taking the registry text apart recovers the version key and the expiry it
      was formatted from. */
  lemma RegistryRoundTrip(v: Version)
    requires IsDateSign(v.dateSign)
    ensures VersionKeyOf(RegistryText(v)) == VersionKey(v)
    ensures ExpireTextOf(RegistryText(v)) == Some(NatToString(v.expire))
    ensures ExpireOf(RegistryText(v)) == Some(v.expire)
  {
    var expire := NatToString(v.expire);
    VersionKeyShape(v);
    assert forall i :: 0 <= i < |expire| ==> IsDigit(expire[i]);
    assert ',' !in expire;
    SplitAtFirst(VersionKey(v), expire, ',');
    SplitNoSeparator(expire, ',');
    assert VersionKey(v) + [','] + expire == RegistryText(v);
    NatToStringRoundTrip(v.expire);
  }

  /** Taking the version key apart recovers the client id (the key without its
      prefix), the date sign and the counter. */
  lemma VersionKeyFields(v: Version)
    requires IsDateSign(v.dateSign)
    ensures ClientVersion(VersionKey(v)) == Some(ClientId(v))
    ensures AnnouncePrefix + ClientId(v) == VersionKey(v) && ':' !in ClientId(v)
    ensures DateSignOf(VersionKey(v)) == Some(v.dateSign)
    ensures CounterOf(VersionKey(v)) == Some(v.counter)
  {
    var digits := NatToString(v.counter);
    var id := ClientId(v);
    VersionKeyShape(v);
    assert forall i :: 0 <= i < |digits| ==> IsDigit(digits[i]);
    assert '_' !in digits;
    // split on ':'
    assert VersionKey(v) == "ANNOUNCE" + [':'] + id;
    SplitAtFirst("ANNOUNCE", id, ':');
    SplitNoSeparator(id, ':');
    // split of the client id on '_'
    assert id == v.dateSign + ['_'] + digits;
    SplitAtFirst(v.dateSign, digits, '_');
    // split of the whole key on '_'
    assert VersionKey(v) == (AnnouncePrefix + v.dateSign) + ['_'] + digits;
    SplitAtFirst(AnnouncePrefix + v.dateSign, digits, '_');
    SplitNoSeparator(digits, '_');
    NatToStringRoundTrip(v.counter);
  }

  /** Two well-formed versions share a key only when they share date sign and
      counter. */
  lemma VersionKeyInjective(v: Version, w: Version)
    requires IsDateSign(v.dateSign) && IsDateSign(w.dateSign)
    requires VersionKey(v) == VersionKey(w)
    ensures v.dateSign == w.dateSign && v.counter == w.counter
  {
    VersionKeyFields(v);
    VersionKeyFields(w);
  }

  /** The counter computed from the stored text follows the reference rule. */
  lemma NextCounterRule(v: Version, dateSign: string, expire: nat)
    requires IsDateSign(v.dateSign)
    ensures DateSignOf(VersionKeyOf(RegistryText(v))) == Some(v.dateSign)
    ensures NextCounter(Some(RegistryText(v)), dateSign) == Some(NextVersion(Some(v), dateSign, expire).counter)
    ensures NextCounter(None, dateSign) == Some(NextVersion(None, dateSign, expire).counter)
  {
    RegistryRoundTrip(v);
    VersionKeyFields(v);
  }

  /** Rotation never reuses the key or the client id of the version it replaces. */
  lemma NextVersionIsNew(v: Version, dateSign: string, expire: nat)
    requires IsDateSign(v.dateSign) && IsDateSign(dateSign)
    ensures VersionKey(NextVersion(Some(v), dateSign, expire)) != VersionKey(v)
    ensures ClientId(NextVersion(Some(v), dateSign, expire)) != ClientId(v)
  {
    var w := NextVersion(Some(v), dateSign, expire);
    if VersionKey(w) == VersionKey(v) {
      VersionKeyInjective(v, w);
      assert false;
    }
  }

  /** The list key holding the registry text is never the list of the version it
      names: reading `split(',')[0]` always lands on a different key. */
  lemma RegistryTextIsNotVersionKey(v: Version)
    requires IsDateSign(v.dateSign)
    ensures VersionKeyOf(RegistryText(v)) != RegistryText(v)
    ensures ',' in RegistryText(v)
  {
    RegistryRoundTrip(v);
  }
}
