/** Call sequences on a fresh store, showing what the service does end to end:
    the first announcement added to an empty store is never listed, so a fresh
    store accepts MAX_COUNT + 1 adds and a lone announcement cannot be hidden;
    with the corrected add the first record is listed, the (MAX_COUNT + 1)-th
    add fails and hiding the only announcement rotates the version. */
module Scenarios {
  import opened Wrappers
  import opened Text
  import opened Registry
  import opened Announcements

  /** One add on an empty store, then getAnnouncement. */
  method FirstAddOnEmptyStore(id: string, title: string, content: string, attach: Option<string>,
                              dateSign: string, now: nat) returns (listed: seq<Record>, version: Option<string>)
    requires IsDateSign(dateSign)
    ensures listed == [] && version.Some?
  {
    var store := new Announcement(0, 0);
    var added := store.AddAnnouncement(id, title, content, attach, dateSign, now, NoFault);
    var got := store.GetAnnouncement(NoFault);
    listed, version := got.value.announces, got.value.version;
  }

  /** The same with the corrected add: the record is listed. */
  method FirstAddOnEmptyStoreCorrected(id: string, title: string, content: string, attach: Option<string>,
                                       dateSign: string, now: nat) returns (listed: seq<Record>, version: Option<string>)
    requires IsDateSign(dateSign)
    ensures listed == [Record(id, title, content, attach, Show)] && version.Some?
  {
    var store := new Announcement(0, 0);
    var added := store.AddAnnouncementCorrected(id, title, content, attach, dateSign, now, NoFault);
    var got := store.GetAnnouncement(NoFault);
    listed, version := got.value.announces, got.value.version;
  }

  /** Adds on a fresh store until the capacity error: MAX_COUNT + 1 succeed. */
  method FillFreshStore(dateSign: string, now: nat) returns (results: seq<Result<nat, Error>>)
    requires IsDateSign(dateSign)
    ensures |results| == MaxCount + 2
    ensures forall i :: 0 <= i < MaxCount + 1 ==> results[i].Success?
    ensures results[MaxCount + 1] == Failure(IndexHigh)
    ensures Message(results[MaxCount + 1].error) == "announce num can not higher then 30"
  {
    var store := new Announcement(0, 0);
    results := [];
    while |results| < MaxCount + 1
      invariant store.Valid()
      invariant |results| <= MaxCount + 1
      invariant |results| == 0 <==> store.version.None?
      invariant |results| > 0 ==> store.version.Some? && |store.CurrentList()| == |results| - 1
      invariant forall i :: 0 <= i < |results| ==> results[i].Success?
    {
      var r := store.AddAnnouncement(NatToString(|results|), "", "", None, dateSign, now, NoFault);
      results := results + [r];
    }
    var last := store.AddAnnouncement(NatToString(|results|), "", "", None, dateSign, now, NoFault);
    results := results + [last];
  }

  /** The same with the corrected add: exactly MAX_COUNT succeed. */
  method FillFreshStoreCorrected(dateSign: string, now: nat) returns (results: seq<Result<nat, Error>>)
    requires IsDateSign(dateSign)
    ensures |results| == MaxCount + 1
    ensures forall i :: 0 <= i < MaxCount ==> results[i].Success?
    ensures results[MaxCount] == Failure(IndexHigh)
  {
    var store := new Announcement(0, 0);
    results := [];
    while |results| < MaxCount
      invariant store.Valid()
      invariant |results| <= MaxCount
      invariant |results| == 0 <==> store.version.None?
      invariant |results| > 0 ==> store.version.Some? && |store.CurrentList()| == |results|
      invariant forall i :: 0 <= i < |results| ==> results[i].Success?
    {
      var r := store.AddAnnouncementCorrected(NatToString(|results|), "", "", None, dateSign, now, NoFault);
      results := results + [r];
    }
    var last := store.AddAnnouncementCorrected(NatToString(|results|), "", "", None, dateSign, now, NoFault);
    results := results + [last];
  }

  /** Add one announcement to an empty store, then hide it: the hide finds no
      entry at index 0. */
  method HideOnlyAnnouncement(dateSign: string, now: nat) returns (err: Option<Error>)
    requires IsDateSign(dateSign)
    ensures err == Some(NoData(0))
    ensures Message(err.value) == "can not find announce at idx : 0"
  {
    var store := new Announcement(0, 0);
    var added := store.AddAnnouncement("id", "title", "content", None, dateSign, now, NoFault);
    var reply;
    err, reply := store.HideAnnouncement(Num(0), dateSign, now, NoFault);
  }

  /** The same with the corrected add: the hide succeeds, the version changes
      and the new version lists nothing. */
  method HideOnlyAnnouncementCorrected(dateSign: string, now: nat)
    returns (err: Option<Error>, before: Option<string>, after: Option<string>, listed: seq<Record>)
    requires IsDateSign(dateSign)
    ensures err == None && before.Some? && after.Some? && before != after && listed == []
  {
    var store := new Announcement(0, 0);
    var added := store.AddAnnouncementCorrected("id", "title", "content", None, dateSign, now, NoFault);
    var v0 := store.GetVersion(NoFault);
    ghost var first := store.version.value;
    NextVersionIsNew(first, dateSign, store.expireSeconds + now);
    var reply;
    err, reply := store.HideAnnouncement(Num(0), dateSign, now, NoFault);
    var got := store.GetAnnouncement(NoFault);
    before, after, listed := v0.value, got.value.version, got.value.announces;
  }
}
