# Check-in app core, modelled in Dafny

This project models the parts of the facility check-in / attendance web
app that have behaviour worth stating:

- **`UpdatePost`** (`update_post.dfy`): the optimistic-concurrency update
  resolver. `request` turns the call arguments into one conditional store
  update. The `id` argument is the key. The `expectedVersion` argument is the
  condition on the stored `version`. Every other argument becomes a set, or a
  remove when it is null or undefined. `version` always becomes "increment
  by 1". A `RecordStore` class holds the records and applies such an update
  atomically, or leaves every record untouched when the condition fails.
  `response` returns the store's result and appends, without raising, the
  store's error.
- **`QrReception`** (`qr_reception.dfy`): the QR reception screen. A
  `ReceptionScreen` object holds the current message, which the mount effect,
  the four demo scans, Yes, No and the delayed resets overwrite. Scheduled
  resets are a list of pending delays (3000 ms for Yes, 2000 ms for No) that
  the environment fires one at a time through `FireReset`. A ghost `phase`
  (idle, a scan for a user, a confirmed departure, cancelled) names which
  message is shown, so the proofs carry over from the phase to the message.
- **`Sidebar`** (`sidebar.dfy`): the navigation sidebar. It covers the pure
  `toggleExpand` update of the expanded-label list, the recursive
  `renderMenuItem` flattened into rows, the click rules and the fixed menu
  tree.
- **`Login`** (`login.dfy`): the login page. A `LoginApp` object holds the
  write guard's flag, the session storage, the create call in flight and the
  history subscription. The pure "latest five logins" selection is a filter,
  a stable newest-first insertion sort and a take of five.
- **`Wrappers`** (`wrappers.dfy`): `Option` and `Result`.

Times are integers in milliseconds. JavaScript values are a small datatype
(`Undefined`, `Null`, booleans, integers, strings). The data service, the
session storage and the router are fields of the model.

`amplify/data/updatePost.js` has no not-found branch. A missing record, or
one without `version`, fails the condition and gets the same
conditional-check error as a version conflict, which `response` appends.

## Model

| member | source | states |
|---|---|---|
| `UpdatePost.Rest` | amplify/data/updatePost.js:5 | the rest of the arguments lists every argument name except `id` and `expectedVersion`, each with the same value |
| `UpdatePost.OpFor` | amplify/data/updatePost.js:7 | `value ?? remove()`: a remove exactly for null and undefined, otherwise a set to that very value |
| `UpdatePost.FoldValues` | amplify/data/updatePost.js:6-9 | the `reduce` gives one instruction per argument name, from the last value listed under it, and keeps earlier entries of the accumulator |
| `UpdatePost.Request` | amplify/data/updatePost.js:4-16 | key is the `id` argument; condition value is `expectedVersion`; attributes are the other argument names plus `version`; `version` is always increment-by-1; each other attribute removes iff its value is nullish and otherwise sets exactly that value |
| `UpdatePost.ApplyOps` | amplify/data/updatePost.js:11-15 | removed attributes are absent, set ones hold the new value, incremented ones hold old + amount, attributes with no instruction keep theirs |
| `UpdatePost.ConditionalUpdate` | amplify/data/updatePost.js:11-15 | the store update: on failure the records are unchanged; a failed condition gives the conditional-check error; success implies the condition held and only the keyed record is replaced by the updated one |
| `UpdatePost.Response` | amplify/data/updatePost.js:18-24 | returns `ctx.result` always; appends exactly one error, with the store's message and type, when there is an error, and none otherwise |
| `UpdatePost.RecordStore.constructor` | amplify/data/updatePost.js:11-15 | a new store holds exactly the given records |
| `UpdatePost.RecordStore.Update` | amplify/data/updatePost.js:11-15 | the method applies the conditional update to its record map: failure leaves the map as it was; success means the condition held and only the keyed record is replaced |
| `UpdatePost.RecordStore.Resolve` | amplify/data/updatePost.js:4-24 | one resolver call runs `request`, the store update and `response`, and the new records are those of the conditional update |
| `UpdatePost.ReservedArgumentsIgnored` | amplify/data/updatePost.js:5-14 | the update is the one built from the arguments other than `id` and `expectedVersion` alone, so their values never reach an attribute |
| `UpdatePost.FalsyValuesAreSet` | amplify/data/updatePost.js:6-9 | `0`, `false` and `""` arguments become sets to exactly that value, not removes |
| `UpdatePost.VersionArgumentIgnored` | amplify/data/updatePost.js:14 | a caller-supplied `version` argument, whatever its value, changes nothing: the request equals the one built without it |
| `UpdatePost.SuccessfulUpdate` | amplify/data/updatePost.js:11-15 | when the stored version equals `expectedVersion`, the update succeeds, the version becomes old + 1, set arguments overwrite, null/undefined arguments remove, all other attributes and all other records are unchanged |
| `UpdatePost.RequestApplied` | amplify/data/updatePost.js:7-14 | applying an update built by `request` to a record: `version` goes up by 1, set arguments overwrite, nullish arguments remove, and every other attribute (the `id` one included) is kept |
| `UpdatePost.IdAttributePreserved` | amplify/data/updatePost.js:5-14 | a successful update built by `request` never changes the stored `id` attribute |
| `UpdatePost.FailedConditionChangesNothing` | amplify/data/updatePost.js:13-24 | a failed condition leaves the records identical, and `response` returns no result with the conditional-check error appended |
| `UpdatePost.SuccessReplies` | amplify/data/updatePost.js:18-24 | after a success `response` returns the stored new record and appends no error |
| `UpdatePost.StaleVersionRejected` | amplify/data/updatePost.js:13-14 | after a successful update, a second request with the same key and the same expected version fails and changes nothing |
| `UpdatePost.RaceHasAtMostOneWinner` | amplify/data/updatePost.js:13-14 | of two requests on one key with one expected version, applied in turn, at most one succeeds |
| `UpdatePost.ExampleRequest` | amplify/data/updatePost.js:4-16 | the example update `{id: "p1", expectedVersion: 3, title: "B", draft: null}` gives key `p1`, condition 3, set title, remove draft, increment version |
| `UpdatePost.ExampleApply` | amplify/data/updatePost.js:11-15 | the store half of the example update, on a sample record: the record becomes `{id, version: 4, title: "B"}`, and a second update conditioned on version 3 is rejected |
| `UpdatePost.ExampleUpdate` | amplify/data/updatePost.js:4-16 | the example update end to end, from the arguments to the rejected second call |
| `QrReception.ScanMessage` | components/qr-reception-screen.tsx:70-101 | arrival and departure scans are `success`, early departure is `question`, already-departed is `warning` (each iff), for the given user |
| `QrReception.Display` | components/qr-reception-screen.tsx:56-147 | the message of each phase: `question` exactly for the early-departure scan; a scan or a confirmed departure names its user, and a confirmed departure shows the departure scan's goodbye; the idle prompt and the cancel notice are `info` with no name |
| `QrReception.ReceptionScreen.constructor` | components/qr-reception-screen.tsx:37 | a new screen has no message and no pending reset |
| `QrReception.ReceptionScreen.ShowInitialMessage` | components/qr-reception-screen.tsx:56-62 | the mount effect shows the idle prompt, of type `info`, with an empty user name |
| `QrReception.ReceptionScreen.SimulateQrScan` | components/qr-reception-screen.tsx:65-102 | a scan shows that scenario's message for a user drawn from the four names and puts the screen in that scan's phase; pending resets are unchanged |
| `QrReception.ReceptionScreen.HandleYes` | components/qr-reception-screen.tsx:105-129 | with no message nothing happens and nothing is scheduled; a message containing the short-of-contract phrase becomes the `success` goodbye for the same user; otherwise the message stays; with a message a 3000 ms reset is scheduled; the screen moves from the early-departure question to the confirmed goodbye and from no other phase |
| `QrReception.ReceptionScreen.HandleNo` | components/qr-reception-screen.tsx:132-147 | shows the cancel notice (`info`, empty name) and schedules a 2000 ms reset |
| `QrReception.ReceptionScreen.FireReset` | components/qr-reception-screen.tsx:122-146 | a pending reset fires: the idle prompt is shown and that reset is no longer pending |
| `QrReception.NotContainedWithoutFirstChar` | components/qr-reception-screen.tsx:108 | `includes` is false when the phrase's first character does not occur in the text |
| `QrReception.PhraseOnlyInQuestion` | components/qr-reception-screen.tsx:70-108 | of the messages of every phase the screen can be in, exactly the early-departure question contains the short-of-contract phrase |
| `QrReception.ScanPhrase` | components/qr-reception-screen.tsx:70-108 | of the four scans' messages, the phrase occurs iff the scan was the early-departure one |
| `QrReception.AnswerEnabledOnlyForQuestion` | components/qr-reception-screen.tsx:267-276 | Yes/No are enabled iff the screen is in the early-departure question, iff the message contains the phrase Yes looks for |
| `QrReception.ShowsUserNameOnlyForScans` | components/qr-reception-screen.tsx:220 | the user-name heading appears iff the screen shows a scan's message or a confirmed departure; never for the idle prompt or the cancel notice |
| `QrReception.MessageStyle` | components/qr-reception-screen.tsx:150-164 | the neutral gray classes are used exactly with no message or an `info` one |
| `QrReception.ShowsUserName` | components/qr-reception-screen.tsx:220 | the name heading is rendered iff there is a message with a non-empty user name |
| `QrReception.AnswerEnabled` | components/qr-reception-screen.tsx:267-276 | the Yes and No buttons are enabled iff a `question` message is shown, which is then drawn in blue |
| `QrReception.StylesOfKinds` | components/qr-reception-screen.tsx:150-164 | success, warning, error, question and no-message styles are pairwise distinct; `info` shares the gray no-message style |
| `QrReception.EarlyDepartureConfirmed` | components/qr-reception-screen.tsx:85-128 | scan early departure, answer Yes, let the reset fire: the screen is back at the idle prompt |
| `Sidebar.HasChildren` | components/sidebar.tsx:95 | an item has children iff its children list is non-empty (an absent `children` is the empty list) |
| `Sidebar.RemoveAll` | components/sidebar.tsx:53 | the filter drops every occurrence of the label, keeps the rest in order (subsequence) and with their counts |
| `Sidebar.Toggle` | components/sidebar.tsx:52-54 | an absent label is appended at the end; a present one is removed entirely while the rest keep their order and counts; the label is listed afterwards iff it was not before |
| `Sidebar.ToggleKeepsDistinct` | components/sidebar.tsx:53 | toggling keeps a duplicate-free list duplicate-free |
| `Sidebar.TogglesFromEmptyDistinct` | components/sidebar.tsx:40-54 | every list reached from the initial empty list by toggles is duplicate-free |
| `Sidebar.ToggleTwiceRestoresAbsent` | components/sidebar.tsx:53 | toggling a label that is not expanded twice gives back the same list |
| `Sidebar.ToggleTwiceSameLabels` | components/sidebar.tsx:53 | toggling any label twice gives back the same set of expanded labels |
| `Sidebar.ToggleTwiceReorders` | components/sidebar.tsx:53 | toggling twice does not restore the order in general: `["a","b"]` toggled on `"a"` twice is `["b","a"]` |
| `Sidebar.OwnRow` | components/sidebar.tsx:99-142 | an item's own link row carries its label, level and active flag; the label shows iff the sidebar is open; the chevron shows iff open and the item has children, pointing down iff its label is expanded; the hover tooltip shows iff closed and the item has children |
| `Sidebar.RenderItem` | components/sidebar.tsx:93-151 | an item renders its own row first, and further rows exactly when the sidebar is open, it has children and its label is expanded |
| `Sidebar.RenderItems` | components/sidebar.tsx:146 | a list of items renders at least one row per item, starting with the first item's row; its full shape is stated by the two lemmas below |
| `Sidebar.RenderItemsSingleton` | components/sidebar.tsx:146 | a one-item list renders exactly as that item's `RenderItem` rows |
| `Sidebar.RenderItemsAppend` | components/sidebar.tsx:146 | the `map` over a list of items renders the concatenation of its parts' rows, so every item contributes its own `RenderItem` rows, in order; this holds for the top-level menu too (components/sidebar.tsx:192) |
| `Sidebar.RowsAtOrBelow` | components/sidebar.tsx:105-146 | every row rendered from items at a level sits at that level or deeper, since children are rendered at level + 1 |
| `Sidebar.ChildrenOneLevelDeeper` | components/sidebar.tsx:144-148 | an item whose children are shown is followed by exactly its children's rows, rendered at level + 1, the first child's own row first, and every one of them at level + 1 or deeper |
| `Sidebar.OnlyTopLevelWhenCollapsed` | components/sidebar.tsx:144-147 | with the sidebar closed or nothing expanded, exactly one row per item is rendered, each the item's own row at the same level |
| `Sidebar.ClickItem` | components/sidebar.tsx:107-114 | a click on an item without children follows its link and leaves the list alone; with children it cancels navigation, and only when the sidebar is open the list becomes `Toggle(expanded, label)`, so the other expanded labels keep their order and counts |
| `Sidebar.ClickChevron` | components/sidebar.tsx:126-129 | the chevron button flips whether the item's label is expanded: the list becomes `Toggle(expanded, label)`, which keeps the other labels in order |
| `Sidebar.ChevronAgreesWithRow` | components/sidebar.tsx:121-131 | wherever the chevron is shown, clicking it changes the list exactly as clicking the row does |
| `Sidebar.MainMenu` | components/sidebar.tsx:56-81 | the menu has 7 top-level items; only the first (3 children) and the fifth (2 children) have children |
| `Sidebar.MainMenuShape` | components/sidebar.tsx:56-81 | exactly one top-level menu item is active: "通所実績管理", the sixth |
| `Login.SessionKey` | app/page.tsx:132 | the session key is `hasLogged_` followed by exactly the login id |
| `Login.SessionKeysDistinct` | app/page.tsx:132-133 | different login ids have different session keys, so one user's mark never blocks another user's write |
| `Login.IsMarked` | app/page.tsx:133 | a key counts as marked iff the session storage holds a non-empty value for it |
| `Login.JstTimestamp` | app/page.tsx:142-147 | the stored login time is the current time plus exactly 32400000 ms (9 hours) |
| `Login.WriteFor` | app/page.tsx:119-135 | a write happens iff the status is authenticated, a user exists, no write has started, the login id is present and non-empty, and `hasLogged_<id>` is not marked; it writes for that id |
| `Login.LoginApp.constructor` | app/page.tsx:103-116 | a fresh mount over the surviving session storage: no write in flight or made, no redirect scheduled, no subscription, the history hidden and no logins |
| `Login.LoginApp.LoginEffect` | app/page.tsx:119-171 | when the guard passes, the writing flag is set and the create call is issued with the id and the JST time; otherwise nothing changes; the session storage is untouched |
| `Login.LoginApp.CreateSettled` | app/page.tsx:154-169 | only a successful create marks `hasLogged_<id>` and schedules the redirect; a failure leaves the session as it was; the writing flag stays set |
| `Login.LoginApp.ShowHistory` | app/page.tsx:174-191 | shows the history and registers the subscription at most once, however often it is called |
| `Login.LoginApp.ReceiveSnapshot` | app/page.tsx:179-187 | a snapshot replaces the shown logins with its latest-five selection |
| `Login.LoginApp.Unmount` | app/page.tsx:194-198 | the cleanup stops the subscription's deliveries; every other field, the redirect and the history flag included, is unchanged |
| `Login.LoginApp.HandleSignOut` | app/page.tsx:200-204 | signing out clears the session storage; every other field, the redirect, the history flag and the logins included, is unchanged |
| `Login.KeepTimed` | app/page.tsx:181 | the filter keeps exactly the entries with a login time, each as often as it occurs |
| `Login.Insert` | app/page.tsx:182-184 | one insertion step adds exactly the new entry to the list |
| `Login.InsertNewestFirst` | app/page.tsx:182-184 | inserting into a newest-first list keeps it newest first |
| `Login.SortNewestFirst` | app/page.tsx:182-184 | the sort returns a newest-first permutation of its input |
| `Login.LatestLogins` | app/page.tsx:180-185 | at most 5 entries, all with a login time, newest first, a sub-multiset of the snapshot |
| `Login.LatestLoginsSize` | app/page.tsx:180-185 | the selection has min(5, number of timed entries) entries, and all timed entries when there are at most 5 |
| `Login.LatestLoginsLeaveOutOnlyOlder` | app/page.tsx:180-185 | no timed entry left out is newer than the oldest entry shown |
| `Login.TwoTriggers` | app/page.tsx:122-169 | after a first write, a second trigger in the same mount writes nothing whatever its status and user; the key is marked iff the first create succeeded |
| `Login.MarkedSessionSkips` | app/page.tsx:132-133 | when the session key is already marked, no write happens |

## Left out

- Rendering: JSX, Tailwind classes (except the message-type → style mapping), icons, framer-motion animation, dialogs and toasts are not modelled. The Yes handler's toast ("退所を記録しました") and the logout dialog are UI only.
- The clock display on the reception screen, date formatting and `Date` parsing are not modelled. Login times are integers, and an absent or empty `loginTime` is `None`. `new Date(...)` returning NaN for a malformed time string is outside the model.
- `Math.random` is not modelled. The scan picks its user by a nondeterministic choice among the four names.
- Timers are not modelled as time. `setTimeout` resets are pending entries fired by `FireReset`, in any order. The interval that updates the clock is left out. The 100 ms redirect delay is only a flag, `redirectScheduled`.
- Concurrency is not modelled. Racing writers are two updates applied one after the other, and the store's atomicity is taken as given.
- The store's transport, throttling and permission errors are not modelled. The store model has one error for a failed condition and one for an increment of a non-number. The updatePost argument values are scalars: floats, lists and nested objects are not modelled.
- The Amplify authenticator, `generateClient`, `Login.create` and `observeQuery` are not modelled, only their effects: a create call is recorded and later settled, and a subscription delivers snapshots. Sign-out itself is external; only the session clear is modelled.
- Window resizing and mobile detection in the sidebar are not modelled. The `href` of an item is kept, but the navigation itself is only the `followsLink` flag.
- The configuration files (`app/template.tsx`, `app/list/layout.tsx`, `amplify-bb/backend.ts`, `amplify/auth/resource.ts`) and `hooks/use-signout.ts` are not modelled: they declare themes, layouts, backend resources, identity settings and a sign-out wrapper, with no logic of their own.
- Login.SortNewestFirst: keeps entries with equal times in their input order (the sort is stable, like `Array.prototype.sort`), but no lemma states that stability.
- Sidebar.ToggleTwiceSameLabels: toggling a label twice restores the list exactly only when it was not expanded (`ToggleTwiceRestoresAbsent`); for an expanded label only the same labels come back, and `ToggleTwiceReorders` gives an input where the order changes.
