# Versioned announcement store (announce-redis) in Dafny

This project models the announcement store of `index.js`: a server-wide list of
broadcast announcements kept in Redis and grouped into *versions*. One registry
value, the string `"ANNOUNCE:<dateSign>_<counter>,<expire>"` under the key
`V:AND:E`, names the current version and its expiry; the version key
`ANNOUNCE:<dateSign>_<counter>` holds that version's list of records
`{id, title, content, attach, isHide}`. The store *rotates* to a new, empty
version on demand (`deleteAll` / `changeVersion`), when its expiry timer fires,
and when hiding an announcement leaves every entry of the version hidden.

Files:

- `wrappers.dfy` — `Option` and `Result`.
- `text.dfy` — JavaScript's `split` with a one-character separator, `%d`
  rendering and unary `+`, with their round trips.
- `registry.dfy` — the registry format, the helpers that take it apart
  (`_getVersionKeyByVAndE`, `_getExpireTimeByVAndE`, `_getClientVersion`, the
  date-sign and counter extraction of `_changeNewVersion`), the next-version
  rule, and the round-trip and freshness lemmas.
- `announcement.dfy` — the `Announcement` class: the store state (`registry`,
  `lists`, the pending timer), its invariant `Valid()`, and every operation.
- `scenarios.dfy` — call sequences on a fresh store that show the end-to-end
  behaviour, including the source defect listed under Findings.

The store is a class whose fields are the Redis values the service touches;
`multi(...).exec` is one atomic step of `ChangeNewVersion`. `Valid()` carries
the invariants: the registry is absent or the text of a well-formed version; the
current version's list holds at most `MAX_COUNT` (30) records; a non-empty
current list always has a visible record (hiding the last visible one rotates
instead); and every other list sits under a key containing `,`. The unique id,
the calendar date sign and the current time in seconds are parameters, and so is
a `Fault` that says whether the registry read or the rotation's commit fails.

Behaviour kept from the source as it is:

- `addAnnouncement` reports the length of the list after the push (the reply of
  RPUSH), not the id of the new record.
- The capacity check compares the list length with the constant `MAX_COUNT`
  using `==`; the configured `maxCount` is stored and never read.
- `hideAnnouncement` with no current version calls back with a null error,
  which the caller sees as success.
- `getAnnouncement` hands back the expiry as the text after the `,`, while
  `getExpireTime` converts it to a number.
- With no version, `addAnnouncement` ignores an error of the rotation it starts
  and pushes anyway.
- The expiry timer is armed with the absolute expiry in epoch seconds as its
  delay, which `setTimeout` reads as milliseconds; the model records that value.
- Because of the defect under Findings, a fresh store accepts 31 adds before the
  capacity error, and hiding the only announcement added to a fresh store fails
  with "can not find announce at idx : 0" (`Scenarios.FillFreshStore`,
  `Scenarios.HideOnlyAnnouncement`).

## Model

| member | source | states |
|---|---|---|
| `Text.Split` | index.js:283 | `split` yields at least one piece and no piece contains the separator |
| `Text.SplitJoin` | index.js:282-284 | joining the pieces of a split with the separator gives back the original string |
| `Text.JoinSplit` | index.js:253 | splitting a joined string gives back the pieces when none contains the separator |
| `Text.NatToStringRoundTrip` | index.js:253 | converting the `%d` rendering of n back with `+` gives n, so distinct counters and expiries render differently |
| `Registry.RegistryText` | index.js:253 | the `'%s%s_%d,%d'` format; `Registry.RegistryRoundTrip` proves the key and expiry read back from it |
| `Registry.VersionKeyOf` | index.js:282-284 | `_getVersionKeyByVAndE`: the result never contains `,`; `Registry.RegistryRoundTrip` proves it recovers the formatted version key |
| `Registry.ExpireTextOf` | index.js:126-128 | the `split(',')[1]` text of getAnnouncement, free of `,` when present; `Registry.RegistryRoundTrip` proves it is the rendered expiry |
| `Registry.ExpireOf` | index.js:292-294 | `_getExpireTimeByVAndE`; `Registry.RegistryRoundTrip` proves it recovers the formatted expiry |
| `Registry.ClientVersion` | index.js:272-274 | `_getClientVersion`: the id never contains `:`; `Registry.VersionKeyFields` proves it is the key with exactly the `ANNOUNCE:` prefix stripped |
| `Registry.NextCounter` | index.js:245-251 | the counter computed from the stored text is at least 1 whenever it is a number; `Registry.NextCounterRule` proves it follows the same-date +1, otherwise 1, rule |
| `Registry.VersionKeyShape` | index.js:253 | a version key has no `,`, starts with `ANNOUNCE:`, and its client part has no `:` |
| `Registry.RegistryRoundTrip` | index.js:282-294 | from the formatted registry text, `_getVersionKeyByVAndE` recovers the version key and `_getExpireTimeByVAndE` the expiry |
| `Registry.VersionKeyFields` | index.js:272-274 | `_getClientVersion` strips exactly the `ANNOUNCE:` prefix (no `:` remains), and the date sign and counter read back from the key are the ones written |
| `Registry.VersionKeyInjective` | index.js:250-253 | two versions share a key only if they share date sign and counter |
| `Registry.NextCounterRule` | index.js:245-253 | the counter computed from the stored text is the old counter + 1 on the same date sign and 1 on another date or with no old version |
| `Registry.NextVersionIsNew` | index.js:245-253 | a rotation never produces the key or the client id of the version it replaces |
| `Registry.RegistryTextIsNotVersionKey` | index.js:101-102 | the list named by the whole registry text is never the list `split(',')[0]` reads |
| `Announcements.CountHidden` | index.js:173-182 | the count of hidden entries never exceeds the list length |
| `Announcements.CountHiddenAll` | index.js:186 | the hidden count equals the length exactly when every entry is hidden |
| `Announcements.ScanForHide` | index.js:172-183 | the `forEach` pass reports whether the target was already hidden, the target marked hidden, and the number of hidden entries once it is |
| `Announcements.Announcement.constructor` | index.js:44-51 | a store with no version and no lists; zero options fall back to 30 and 604800 |
| `Announcements.Announcement.Start` | index.js:55-66 | with a readable version the timer is armed with its stored expiry; nothing else changes |
| `Announcements.Announcement.Stop` | index.js:68-74 | the pending timer is cleared; the store is untouched |
| `Announcements.Announcement.PushRecord` | index.js:97-99 | RPUSH appends the record to the list under the key and answers the new length; nothing else changes |
| `Announcements.Announcement.ChangeNewVersion` | index.js:228-264 | on a read failure nothing changes; on a commit failure nothing changes; otherwise the next version is current, the old list is deleted, every other list is kept, the new list is empty, the client id differs from the old one, and the timer is re-armed; the callback gets the whole registry text |
| `Announcements.Announcement.AddAnnouncement` | index.js:83-110 | with a version: capacity error exactly when the list holds 30, otherwise the visible record is appended at the end and nothing else changes; with none: the store rotates and the record goes to the list under the registry text, not the version's list |
| `Announcements.Announcement.AddAnnouncementCorrected` | index.js:100-103 | every successful add leaves the new visible record last in the current version's list; a failed rotation is reported and changes nothing |
| `Announcements.Announcement.GetAnnouncement` | index.js:117-140 | all records of the current version (hidden ones included), the client id and the expiry text; `([], null, 0)` with no version |
| `Announcements.Announcement.GetVersion` | index.js:198-207 | the client id of the current version, prefix-free; nothing with no version |
| `Announcements.Announcement.GetExpireTime` | index.js:213-222 | the current version's expiry in seconds; 0 with no version |
| `Announcements.Announcement.HideAnnouncement` | index.js:147-192 | non-number and negative indexes are refused before the store is read; a missing version is silent success; an index past the end is NoData; hiding a hidden entry changes nothing; hiding the last visible entry rotates and hands back the new registry text; otherwise only that entry becomes hidden and LSET's "OK" is handed back |
| `Scenarios.FirstAddOnEmptyStore` | index.js:100-103 | after one add to an empty store, getAnnouncement lists nothing though a version exists |
| `Scenarios.FirstAddOnEmptyStoreCorrected` | index.js:100-103 | with the corrected add, the first record is listed |
| `Scenarios.FillFreshStore` | index.js:100-107 | a fresh store accepts 31 adds and refuses the 32nd with the capacity error, `announce num can not higher then 30` |
| `Scenarios.FillFreshStoreCorrected` | index.js:105-106 | with the corrected add, a fresh store accepts 30 adds and refuses the 31st |
| `Scenarios.HideOnlyAnnouncement` | index.js:168-171 | hiding the only announcement added to a fresh store fails with NoData(0), whose text is `can not find announce at idx : 0` |
| `Scenarios.HideOnlyAnnouncementCorrected` | index.js:184-187 | with the corrected add, hiding the only announcement succeeds, changes the version id and leaves an empty list |

## Findings

| source | as written | input that shows it | evidently intended | confidence | as-written member | corrected member |
|---|---|---|---|---|---|---|
| index.js:101-102 | the rotation's callback receives the whole registry text `ANNOUNCE:<d>_1,<expire>` and the record is pushed to the list under that text, which no reader ever looks at | an empty store, one `addAnnouncement`, then `getAnnouncement`: the list is empty | push to the version key `ANNOUNCE:<d>_1`, the first field of that text | high; not executed | `Announcements.Announcement.AddAnnouncement`, exhibited by `Scenarios.FirstAddOnEmptyStore` | `Announcements.Announcement.AddAnnouncementCorrected`, shown by `Scenarios.FirstAddOnEmptyStoreCorrected` |

## Left out

- The Redis client and its callbacks: the store is the class's fields, and each operation is one method call. Only a failed registry read and a failed rotation commit are modelled. Two ignored errors have effects the model does not capture. An LLEN failure in `addAnnouncement` leaves the count undefined, so the check at index.js:105-106 passes and the push goes ahead even on a full list; the model always reads the true length, and its invariant keeps the current list within 30. An LRANGE failure in `getAnnouncement` makes index.js:129-136 report success with an empty list; the model always returns the stored list. It does not model the LRANGE error that `hideAnnouncement` passes to its caller (index.js:163-166), nor errors of RPUSH, LSET and DEL, which reach the caller through the callback.
- Concurrency between service instances: the check-then-act races in add and hide, and redundant timer rotations, are not sequential behaviour.
- Timers: the model records the delay of the pending `setTimeout`; its firing is a call of `ChangeNewVersion`, made by the caller.
- `Announcements.Announcement.Start`: records one pending timer; a second `start` while one is armed leaves two timers pending in the source, which the single `timer` field does not represent.
- `Announcements.Announcement.Stop`: does not model releasing the client handle (`this.redis = null`); operations after `stop` are outside the model.
- `uuidV1()`, `new Date()` and `toLocaleDateString()`: the id, the current seconds and the date sign are parameters; a date sign never contains `,`, `:` or `_`.
- `JSON.stringify` / `JSON.parse`: records are stored as values, the attachment in its serialized form.
- Numeric coercion: the hide index is either not a number or an integer; `+` on a string is modelled for digit strings and the empty string, and other numeric forms (signs, spaces, decimals, exponents) read as NaN.
- The `expireTime` field, which the source sets to 0 and never reads.
- The constructor starts from an empty store; stores with earlier content are reached through the operations.
- `Announcements.Announcement.HideAnnouncement`: one `fault` drives both registry reads, so a failure of the second read, made by the cascade's rotation after hide's own read succeeded (index.js:187, 240-243), is not modelled; the callback's second argument is modelled as `reply`.
- In `addAnnouncement` with no version, a failure of the rotation's own registry read (just after the add's read succeeded) is not modelled.
