/** The announcement service: a registry naming the current version, one list
    of announcement records per version, and the operations that add, read and
    hide records and rotate to a new version. */
module Announcements {
  import opened Wrappers
  import opened Text
  import opened Registry

  /** `isHide`: STATUS_SHOW (0) or STATUS_HIDE (1). */
  datatype Status = Show | Hide

  /** One announcement as stored in a version's list. The attachment is kept in
      its serialized form. */
  datatype Record = Record(id: string, title: string, content: string, attach: Option<string>, status: Status)

  /** The errors handed to callers; `StoreFailure` is the store's own error,
      passed through unchanged. */
  datatype Error = IndexType | IndexLow | IndexHigh | NoData(idx: nat) | StoreFailure

  /** Which store call fails, if any: the read of the registry, or the atomic
      commit of a rotation. */
  datatype Fault = NoFault | ReadFault | CommitFault

  /** The index argument of hideAnnouncement after `+idx.toString()`. */
  datatype IndexArg = NotANumber | Num(n: int)

  /** What getAnnouncement hands back: every record of the current version
      (hidden ones included), the client version id, and the expiry text; an
      absent expiry stands for the numeric 0 given when there is no version. */
  datatype Listing = Listing(announces: seq<Record>, version: Option<string>, expire: Option<string>)

  /** The error texts the callback receives. */
  function Message(e: Error): string
    requires !e.StoreFailure?
  {
    match e
    case IndexType => "idx must be number"
    case IndexLow => "idx can not lower than 0"
    case IndexHigh => "announce num can not higher then " + NatToString(MaxCount)
    case NoData(idx) => "can not find announce at idx : " + NatToString(idx)
  }

  predicate AllHidden(s: seq<Record>)
  {
    forall i :: 0 <= i < |s| ==> s[i].status == Hide
  }

  /** The list with entry `i` marked hidden. */
  function HideAt(s: seq<Record>, i: nat): seq<Record>
    requires i < |s|
  {
    s[i := s[i].(status := Hide)]
  }

  /** The number of hidden entries. */
  function CountHidden(s: seq<Record>): (r: nat)
    ensures r <= |s|
    decreases |s|
  {
    if s == [] then 0
    else CountHidden(s[..|s| - 1]) + (if s[|s| - 1].status == Hide then 1 else 0)
  }

  /** Counting reaches the length exactly when every entry is hidden. */
  lemma {:induction false} CountHiddenAll(s: seq<Record>)
    ensures CountHidden(s) == |s| <==> AllHidden(s)
    decreases |s|
  {
    if s != [] {
      var init := s[..|s| - 1];
      CountHiddenAll(init);
      assert forall i :: 0 <= i < |init| ==> init[i] == s[i];
    }
  }

  /** The `forEach` pass of hideAnnouncement over the stored list: whether the
      target was hidden already, the target marked hidden, and how many entries
      are hidden once it is. */
  method ScanForHide(announces: seq<Record>, idx: nat) returns (alreadyHide: bool, aim: Record, hideCount: nat)
    requires idx < |announces|
    ensures alreadyHide <==> announces[idx].status == Hide
    ensures aim == announces[idx].(status := Hide)
    ensures hideCount == CountHidden(HideAt(announces, idx))
  {
    ghost var target := HideAt(announces, idx);
    var found: Option<Record> := None;
    alreadyHide := false;
    hideCount := 0;
    var index := 0;
    while index < |announces|
      invariant 0 <= index <= |announces|
      invariant hideCount == CountHidden(target[..index])
      invariant found.Some? <==> idx < index
      invariant found.Some? ==> found.value == target[idx] && (alreadyHide <==> announces[idx].status == Hide)
    {
      var d := announces[index];
      if index == idx {
        alreadyHide := d.status == Hide;
        found := Some(d.(status := Hide));
        hideCount := hideCount + 1;
      } else {
        hideCount := if d.status == Hide then hideCount + 1 else hideCount;
      }
      assert target[..index + 1][..index] == target[..index];
      index := index + 1;
    }
    assert target[..index] == target;
    aim := found.value;
  }

  /** The service over one store. `registry` is the value under the key
      `V:AND:E`; `lists` holds the store's list values by key. */
  class Announcement {
    var registry: Option<string>
    var lists: map<string, seq<Record>>
    /** The delay handed to the pending `setTimeout`, if one is armed. */
    var timer: Option<nat>
    /** `opts.maxCount || MAX_COUNT`; the capacity check does not read it. */
    const maxCount: nat
    /** `opts.expireSeconds || EXPIRE_SECONDS`. */
    const expireSeconds: nat
    /** The version the registry text was formatted from. */
    ghost var version: Option<Version>

    /** LRANGE key 0 -1: a missing key reads as the empty list. */
    function ListAt(key: string): seq<Record>
      reads this
    {
      if key in lists then lists[key] else []
    }

    ghost function CurrentList(): seq<Record>
      reads this
      requires version.Some?
    {
      ListAt(VersionKey(version.value))
    }

    /** The registry is absent or the text of a well-formed version; the current
        list stays within capacity and, when non-empty, holds a visible entry;
        every other list lives under a key holding `,` (only the list the first
        add writes to, see AddAnnouncement). */
    ghost predicate Valid()
      reads this
    {
      && (match version
          case None => registry.None?
          case Some(v) =>
            && IsDateSign(v.dateSign)
            && registry == Some(RegistryText(v))
            && |CurrentList()| <= MaxCount
            && (CurrentList() == [] || !AllHidden(CurrentList())))
      && (forall k :: k in lists ==> ',' in k || (version.Some? && k == VersionKey(version.value)))
    }

    /** The state after a committed rotation: the next version is current, its
        text is in the registry, the timer is armed with its expiry, and the old
        version's list is gone while every other list is untouched. */
    twostate predicate RotatedFrom(dateSign: string, now: nat)
      reads this
    {
      var v := NextVersion(old(version), dateSign, expireSeconds + now);
      && version == Some(v)
      && registry == Some(RegistryText(v))
      && timer == Some(v.expire)
      && lists == (match old(version)
                   case None => old(lists)
                   case Some(p) => old(lists) - {VersionKey(p)})
    }

    /** A service over an empty store; a zero option falls back to its default. */
    constructor (maxCountOption: nat, expireSecondsOption: nat)
      ensures Valid()
      ensures registry == None && version == None && lists == map[] && timer == None
      ensures maxCount == (if maxCountOption == 0 then MaxCount else maxCountOption)
      ensures expireSeconds == (if expireSecondsOption == 0 then ExpireSeconds else expireSecondsOption)
    {
      registry := None;
      lists := map[];
      timer := None;
      maxCount := if maxCountOption == 0 then MaxCount else maxCountOption;
      expireSeconds := if expireSecondsOption == 0 then ExpireSeconds else expireSecondsOption;
      version := None;
    }

    /** start: arm the timer from the stored expiry, when the registry can be
        read and holds a version. */
    method Start(fault: Fault)
      requires Valid()
      modifies this
      ensures Valid()
      ensures registry == old(registry) && lists == old(lists) && version == old(version)
      ensures timer == if fault != ReadFault && version.Some? then Some(version.value.expire) else old(timer)
    {
      if fault == ReadFault || registry.None? {
        return;
      }
      RegistryRoundTrip(version.value);
      var expire := ExpireOf(registry.value);
      timer := Some(expire.value);
    }

    /** stop: clear the pending timer. */
    method Stop()
      modifies this
      ensures registry == old(registry) && lists == old(lists) && version == old(version)
      ensures timer == None
    {
      timer := None;
    }

    /** _pushRedis: RPUSH, answering the new length of the list. */
    method PushRecord(key: string, announce: Record) returns (length: nat)
      modifies this
      ensures lists == old(lists)[key := old(ListAt(key)) + [announce]]
      ensures length == |old(ListAt(key))| + 1
      ensures registry == old(registry) && version == old(version) && timer == old(timer)
    {
      var s := ListAt(key) + [announce];
      lists := lists[key := s];
      length := |s|;
    }

    /** _changeNewVersion, also reached as deleteAll, changeVersion and the
        expiry timer: compute the next version from the stored one, then delete
        the old list and overwrite the registry in one atomic commit. The
        registry text itself (key and expiry) is what the callback receives. */
    method ChangeNewVersion(dateSign: string, now: nat, fault: Fault) returns (err: Option<Error>, versionText: Option<string>)
      requires Valid() && IsDateSign(dateSign)
      modifies this
      ensures Valid()
      ensures fault == ReadFault ==> err == Some(StoreFailure) && versionText == None && unchanged(this)
      ensures fault != ReadFault ==>
        versionText == Some(RegistryText(NextVersion(old(version), dateSign, expireSeconds + now)))
      ensures fault == CommitFault ==> err == Some(StoreFailure) && unchanged(this)
      ensures fault == NoFault ==> err == None && RotatedFrom(dateSign, now) && CurrentList() == []
      ensures fault == NoFault && old(version).Some? ==> ClientId(version.value) != ClientId(old(version).value)
    {
      if fault == ReadFault {
        return Some(StoreFailure), None;
      }
      var oldVersion := registry;
      var expire := expireSeconds + now;
      ghost var next := NextVersion(version, dateSign, expire);
      if oldVersion.Some? {
        RegistryRoundTrip(version.value);
        NextCounterRule(version.value, dateSign, expire);
        NextVersionIsNew(version.value, dateSign, expire);
      }
      var countSign := NextCounter(oldVersion, dateSign);
      assert countSign == Some(next.counter);
      var text := AnnouncePrefix + dateSign + "_" + NatToString(countSign.value) + "," + NatToString(expire);
      assert text == RegistryText(next);
      versionText := Some(text);
      if fault == CommitFault {
        return Some(StoreFailure), versionText;
      }
      // multi([['del', oldKey], ['set', V:AND:E, text]]).exec(): one atomic step
      if oldVersion.Some? {
        lists := lists - {VersionKeyOf(oldVersion.value)};
      }
      registry := Some(text);
      version := Some(next);
      timer := Some(expire);
      err := None;
      VersionKeyShape(next);
    }

    /** addAnnouncement as written: a visible record appended to the current
        version's list unless that list already holds MAX_COUNT records; with no
        version, rotate first and push to the string the rotation hands back,
        which is the whole registry text and not the version key. */
    method AddAnnouncement(id: string, title: string, content: string, attach: Option<string>,
                           dateSign: string, now: nat, fault: Fault) returns (r: Result<nat, Error>)
      requires Valid() && IsDateSign(dateSign)
      modifies this
      ensures Valid()
      ensures fault == ReadFault ==> r == Failure(StoreFailure) && unchanged(this)
      ensures fault != ReadFault && old(version).Some? ==>
        var s := old(CurrentList());
        && (r == Failure(IndexHigh) <==> |s| == MaxCount)
        && (|s| == MaxCount ==> unchanged(this))
        && (|s| != MaxCount ==>
              && r == Success(|s| + 1)
              && lists == old(lists)[VersionKey(old(version).value) := s + [Record(id, title, content, attach, Show)]]
              && registry == old(registry) && version == old(version) && timer == old(timer))
      ensures fault != ReadFault && old(version).None? ==>
        var v := NextVersion(None, dateSign, expireSeconds + now);
        var orphan := RegistryText(v);
        && r == Success(|old(ListAt(orphan))| + 1)
        && lists == old(lists)[orphan := old(ListAt(orphan)) + [Record(id, title, content, attach, Show)]]
        && (fault == NoFault ==> version == Some(v) && registry == Some(orphan) && timer == Some(v.expire) && CurrentList() == [])
        && (fault == CommitFault ==> version == None && registry == None && timer == old(timer))
    {
      var announce := Record(id, title, content, attach, Show);
      if fault == ReadFault {
        return Failure(StoreFailure);
      }
      if registry.None? {
        // the callback ignores the rotation's error and pushes to the text it got
        var e, text := ChangeNewVersion(dateSign, now, fault);
        ghost var v := NextVersion(None, dateSign, expireSeconds + now);
        RegistryTextIsNotVersionKey(v);
        VersionKeyShape(v);
        var length := PushRecord(text.value, announce);
        r := Success(length);
      } else {
        RegistryRoundTrip(version.value);
        var versionKey := VersionKeyOf(registry.value);
        var count := |ListAt(versionKey)|;
        if count == MaxCount {
          r := Failure(IndexHigh);
        } else {
          var length := PushRecord(versionKey, announce);
          assert lists[versionKey][count] == announce;
          r := Success(length);
        }
      }
    }

    /** addAnnouncement with the version key taken from the rotation's text and
        the rotation's error reported: a successful add always lands at the end
        of the current version's list. */
    method AddAnnouncementCorrected(id: string, title: string, content: string, attach: Option<string>,
                                    dateSign: string, now: nat, fault: Fault) returns (r: Result<nat, Error>)
      requires Valid() && IsDateSign(dateSign)
      modifies this
      ensures Valid()
      ensures fault == ReadFault ==> r == Failure(StoreFailure) && unchanged(this)
      ensures fault != ReadFault && old(version).Some? ==>
        var s := old(CurrentList());
        && (r == Failure(IndexHigh) <==> |s| == MaxCount)
        && (|s| == MaxCount ==> unchanged(this))
        && (|s| != MaxCount ==>
              && r == Success(|s| + 1)
              && lists == old(lists)[VersionKey(old(version).value) := s + [Record(id, title, content, attach, Show)]]
              && registry == old(registry) && version == old(version) && timer == old(timer))
      ensures fault == CommitFault && old(version).None? ==> r == Failure(StoreFailure) && unchanged(this)
      ensures fault == NoFault && old(version).None? ==>
        var v := NextVersion(None, dateSign, expireSeconds + now);
        && r == Success(1)
        && version == Some(v) && registry == Some(RegistryText(v)) && timer == Some(v.expire)
        && lists == old(lists)[VersionKey(v) := [Record(id, title, content, attach, Show)]]
      ensures r.Success? ==>
        && version.Some?
        && CurrentList() == (if old(version).Some? then old(CurrentList()) else []) + [Record(id, title, content, attach, Show)]
        && r.value == |CurrentList()|
    {
      var announce := Record(id, title, content, attach, Show);
      if fault == ReadFault {
        return Failure(StoreFailure);
      }
      var versionKey: string;
      if registry.None? {
        var e, text := ChangeNewVersion(dateSign, now, fault);
        if e.Some? {
          return Failure(e.value);
        }
        ghost var v := NextVersion(None, dateSign, expireSeconds + now);
        assert version == Some(v) && lists == old(lists) && ListAt(VersionKey(v)) == [];
        RegistryRoundTrip(v);
        versionKey := VersionKeyOf(text.value);
      } else {
        RegistryRoundTrip(version.value);
        versionKey := VersionKeyOf(registry.value);
        if |ListAt(versionKey)| == MaxCount {
          return Failure(IndexHigh);
        }
      }
      ghost var before := ListAt(versionKey);
      var length := PushRecord(versionKey, announce);
      assert lists[versionKey] == before + [announce] && lists[versionKey][|before|] == announce;
      if old(version).None? {
        assert before == [] && before + [announce] == [announce];
      }
      r := Success(length);
    }

    /** getAnnouncement: every record of the current version with the client
        version id and the expiry text, or `([], null, 0)` with no version. */
    method GetAnnouncement(fault: Fault) returns (r: Result<Listing, Error>)
      requires Valid()
      ensures fault == ReadFault ==> r == Failure(StoreFailure)
      ensures fault != ReadFault && version.None? ==> r == Success(Listing([], None, None))
      ensures fault != ReadFault && version.Some? ==>
        r == Success(Listing(CurrentList(), Some(ClientId(version.value)), Some(NatToString(version.value.expire))))
    {
      if fault == ReadFault {
        return Failure(StoreFailure);
      }
      if registry.None? {
        return Success(Listing([], None, None));
      }
      RegistryRoundTrip(version.value);
      VersionKeyFields(version.value);
      var versionKey := VersionKeyOf(registry.value);
      var expire := ExpireTextOf(registry.value);
      r := Success(Listing(ListAt(versionKey), ClientVersion(versionKey), expire));
    }

    /** getVersion: the client version id, nothing with no version. */
    method GetVersion(fault: Fault) returns (r: Result<Option<string>, Error>)
      requires Valid()
      ensures fault == ReadFault ==> r == Failure(StoreFailure)
      ensures fault != ReadFault && version.None? ==> r == Success(None)
      ensures fault != ReadFault && version.Some? ==> r == Success(Some(ClientId(version.value)))
      ensures r.Success? && r.value.Some? ==> ':' !in r.value.value && AnnouncePrefix + r.value.value == VersionKey(version.value)
    {
      if fault == ReadFault {
        return Failure(StoreFailure);
      }
      if registry.None? {
        return Success(None);
      }
      RegistryRoundTrip(version.value);
      VersionKeyFields(version.value);
      r := Success(ClientVersion(VersionKeyOf(registry.value)));
    }

    /** getExpireTime: the stored expiry in seconds, 0 with no version. */
    method GetExpireTime(fault: Fault) returns (r: Result<nat, Error>)
      requires Valid()
      ensures fault == ReadFault ==> r == Failure(StoreFailure)
      ensures fault != ReadFault && version.None? ==> r == Success(0)
      ensures fault != ReadFault && version.Some? ==> r == Success(version.value.expire)
    {
      if fault == ReadFault {
        return Failure(StoreFailure);
      }
      if registry.None? {
        return Success(0);
      }
      RegistryRoundTrip(version.value);
      var expire := ExpireOf(registry.value);
      r := Success(expire.value);
    }

    /** hideAnnouncement: validate the index before touching the store; with no
        version, succeed silently; past the end, report NoData; an entry hidden
        already is left alone; hiding the last visible entry rotates the
        version; otherwise only that entry is rewritten (LSET). `reply` is the
        second argument the callback receives: the registry text the rotation
        formatted, LSET's "OK", or nothing. */
    method HideAnnouncement(idx: IndexArg, dateSign: string, now: nat, fault: Fault)
      returns (err: Option<Error>, reply: Option<string>)
      requires Valid() && IsDateSign(dateSign)
      modifies this
      ensures Valid()
      ensures idx.NotANumber? ==> err == Some(IndexType) && reply == None && unchanged(this)
      ensures idx.Num? && idx.n < 0 ==> err == Some(IndexLow) && reply == None && unchanged(this)
      ensures idx.Num? && idx.n >= 0 && fault == ReadFault ==> err == Some(StoreFailure) && reply == None && unchanged(this)
      ensures idx.Num? && idx.n >= 0 && fault != ReadFault && old(version).None? ==> err == None && reply == None && unchanged(this)
      ensures idx.Num? && idx.n >= 0 && fault != ReadFault && old(version).Some? ==>
        var s := old(CurrentList());
        var i := idx.n;
        && (i >= |s| ==> err == Some(NoData(i)) && reply == None && unchanged(this))
        && (i < |s| && s[i].status == Hide ==> err == None && reply == None && unchanged(this))
        && (i < |s| && s[i].status == Show && !AllHidden(HideAt(s, i)) ==>
              && err == None && reply == Some("OK")
              && lists == old(lists)[VersionKey(old(version).value) := HideAt(s, i)]
              && registry == old(registry) && version == old(version) && timer == old(timer))
        && (i < |s| && s[i].status == Show && AllHidden(HideAt(s, i)) ==>
              && reply == Some(RegistryText(NextVersion(old(version), dateSign, expireSeconds + now)))
              && (fault == NoFault ==> err == None && RotatedFrom(dateSign, now) && CurrentList() == [])
              && (fault == CommitFault ==> err == Some(StoreFailure) && unchanged(this)))
    {
      match idx
      case NotANumber =>
        return Some(IndexType), None;
      case Num(n) =>
        if n < 0 {
          return Some(IndexLow), None;
        }
        if fault == ReadFault {
          return Some(StoreFailure), None;
        }
        if registry.None? {
          return None, None;
        }
        RegistryRoundTrip(version.value);
        var versionKey := VersionKeyOf(registry.value);
        var announces := ListAt(versionKey);
        if n > |announces| - 1 {
          return Some(NoData(n)), None;
        }
        var alreadyHide, aimAnnounce, hideCount := ScanForHide(announces, n);
        CountHiddenAll(HideAt(announces, n));
        if alreadyHide {
          err, reply := None, None;
        } else if hideCount == |announces| {
          err, reply := ChangeNewVersion(dateSign, now, fault);
        } else {
          lists := lists[versionKey := announces[n := aimAnnounce]];
          err, reply := None, Some("OK");
        }
    }
  }
}
