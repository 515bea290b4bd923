# Anthias: verification of the playlist engine and its protocols

Anthias is digital signage: a server keeps assets and playlists, a viewer on the same board rotates
through them. This project models the parts where the behaviour is hardest to see from one function,
and proves what their comments promise.

- **The playlist tree** (`PlaylistStore`, `Nesting`, `PlaylistEdits`, `EditLaws`). Playlists nest through items; a
  bounded ancestor walk is the only guard against cycles. Every run of edits keeps one tree rooted at
  the Default playlist.
- **Flattening and evaluation** (`PlayWindow`, `Expansion`, `Expanders`, `ExpansionOrder`,
  `ExpansionExact`, `Evaluation`, `OccurrenceLaws`). The recursive walk to occurrences, for any database at all and
  exactly where the one-parent constraint holds; the day and time windows; the re-evaluation deadline.
- **The scheduler** (`Rotation`, `PlayOnce`, `CacheAgreement`, `RotationLaws`, `RotationCycle`,
  `RefreshLaws`, `SchedulerLaws`, `Scheduling`). `Scheduling.Scheduler` has the viewer's own fields and updates them in
  place; each method equals a transition of `Rotation`, and what is promised over whole runs is proved of
  those transitions.
- **Order writes** (`Ordering`, `ScheduleOrdering`, `ScheduleWrites`, `SavedOrder`), on arrays of items.
- **The sweep lock** (`SweepLock`) and **WebSocket revocation** (`Revocation`, `Consumers`): protocols over
  every interleaving, and objects whose calls, in any order, are runs of those protocols.
- **The webview cache** (`WebviewModel`, `WebviewLaws`, `WebviewCache`), **the under-voltage latch** (`UndervoltageLatch`,
  `LatchInterleaving`), **the bounded output sink** (`BoundedOutput`), **the netlink address dump**
  (`Netlink`, section 2.3.2 of RFC 3549) and **aspect fit** (`AspectFit`).

Where the code does not meet what it suggests, the code is kept, a failing input is given, and the exact
condition is proved:

- `helpers.py:271-320` writes both item positions and `play_order`, and `models.py:582-619` later sorts
  the items by `play_order` again. The saved drag order survives that exactly when listed assets are last
  mentioned in the order they are first mentioned, the unlisted ones follow `play_order`, and none of
  these is below a listed one (`SavedOrder.SavedOrderSurvivesMirrorIff`). A list that names A, B and A
  again is undone (`SavedOrder.RepeatedMentionIsUndone`).
- `helpers.py:243-268` leaves gaps in the positions exactly when an id is listed twice
  (`ScheduleWrites.ReorderDenseIff`, `ScheduleWrites.RepeatedIdLeavesGap`).
- `__init__.py:1907-1958` answers that headers are "in effect", but a respawn inside the load that follows
  shows the page without them, and the next tick finds it unchanged, headers included, and leaves it so
  (`WebviewModel.EveryRunTruthful`, `WebviewModel.UnchangedWithoutHeaders`).
- `scheduling.py:152-188` marks an occurrence as played when it is shown and walks forward over what is
  played out, so "previous" and then another call come back to the occurrence that was left exactly when no
  play-once playlist holds it and either the one before it may still be shown or no other may
  (`RotationLaws.PreviousThenNext`); after the first call of a new scheduler that can already fail
  (`RotationLaws.PreviousCanLoseThePlace`).
- `models.py:559-579` lets no loop through, and refuses only loops exactly when the line above the target
  fits `MAX_PLAYLIST_DEPTH` or the candidate is on it (`Nesting.GateRightIff`); below nine nested playlists
  it refuses a harmless one (`Nesting.HarmlessNestRefused`).
- `undervoltage.py:301-385` reads and then writes. With other writers in between, the stored history is
  kept exactly when every write covers what is stored by then (`LatchInterleaving.HistoryKeptIff`); a slow
  writer that does not takes a count back (`LatchInterleaving.InterleavedWritersLoseCount`).

Conventions: instants are microseconds of local time since a Monday midnight; Python's `%` and `round`
are written out (`Rotation.Wrap`, `AspectFit.RoundHalfEven`); chance (shuffling, failing calls, crashes)
is nondeterminism. What a call reads from outside (clock, settings, mtime, Redis) is a parameter.

## Model

| member | source | states |
|---|---|---|
| PlayWindow.PlayDaysAsStored | src/anthias_server/app/models.py:273-298 | the day list is exactly the days stored, true counting as 1, and all seven if the list is empty, malformed or names anything that is no day |
| PlayWindow.MatchesIsCircularWeek | src/anthias_server/app/models.py:314-342 | the window check holds iff some listed day's opening lies less than the window's length before the instant, modulo a week: same-day, overnight, Sunday-to-Monday, empty and absent windows by one formula |
| PlayWindow.MatchesIffOpen | src/anthias_server/app/models.py:314-342 | the same from the stored columns: open iff some stored day opened less than the window's length ago, in a week of seven 24-hour days |
| PlayWindow.FilterIffSomethingExcluded | src/anthias_server/app/models.py:300-312 | has_window_filter is true iff the window excludes some instant |
| Nesting.PlaylistIsSelfOrAncestor | src/anthias_server/app/models.py:559-579 | the gate lets an edit through iff the whole line above the target is within the depth bound and avoids the candidate |
| Nesting.NestingClosesCycleIff | src/anthias_server/app/models.py:559-579 | nesting a parentless playlist closes a cycle iff it is the new parent or an ancestor of it |
| Nesting.GateRightIff | src/anthias_server/app/models.py:559-579 | the gate never lets a loop through, and its answer is right iff the line above the target fits the bound or the candidate is on it |
| Nesting.HarmlessNestRefused | src/anthias_server/app/models.py:559-579 | a witness: below nine nested playlists, a playlist on no line at all is refused |
| Nesting.ForestAfterAppend | src/anthias_server/app/models.py:559-579 | hanging a parentless playlist under a rooted line that avoids it keeps every playlist climbing to a root |
| Nesting.ForestAfterFilter | src/anthias_server/app/models.py:484-495 | deleting item rows cannot close a cycle |
| PlaylistEdits.AppendToDefaultSound | src/anthias_server/app/models.py:534-556 | appending to Default keeps the forest and the row constraints, and places exactly the playlist asked for |
| PlaylistEdits.NestKeepsTree | src/anthias_server/app/views.py:2523-2570 | a nest request, accepted or refused, keeps the playlists one tree with Default as root |
| PlaylistEdits.RemoveKeepsTree | src/anthias_server/app/views.py:2575-2595 | un-nesting puts the child back under Default, so no playlist plays invisibly |
| PlaylistEdits.DeleteKeepsTree | src/anthias_server/app/views.py:2346-2372 | deleting a playlist re-homes all its children; Default is never deleted |
| PlaylistEdits.CreateKeepsTree | src/anthias_server/app/views.py:2326-2341 | a created playlist becomes a row of the schedule |
| PlaylistEdits.EveryRunKeepsTree | src/anthias_server/app/models.py:534-579 | every run of edits keeps one tree with Default as root, although the gate only walks a bounded line |
| EditLaws.MayNestIff | src/anthias_server/app/views.py:2530-2557 | a nest goes through iff both playlists are stored, the child is a top-level row other than Default, and the line of at most eight above the parent avoids it |
| EditLaws.NestExact | src/anthias_server/app/views.py:2523-2570 | then the child's row goes and one row for it comes just past the last item of the parent, every other row and playlist as it was; otherwise nothing changes |
| EditLaws.NestMovesChild | src/anthias_server/app/views.py:2558-2566 | afterwards the child's parent is the one asked for, and nobody else's parent changed |
| EditLaws.RemoveExact | src/anthias_server/app/views.py:2575-2595 | exactly the row asked for goes, and a playlist it nested becomes the last row of the schedule; without such a row nothing changes |
| EditLaws.CreateExact | src/anthias_server/app/views.py:2326-2341 | a new playlist is stored and becomes the last row of the schedule |
| EditLaws.DeleteExact | src/anthias_server/app/views.py:2346-2372 | the playlist goes with every row that mentions it, and the playlists nested in it become the last rows of the schedule, in the order they had; Default and unknown playlists change nothing |
| Expansion.DecimalRoundTrip | src/anthias_server/app/playlist_eval.py:130-138 | an item id is recovered from its decimal |
| Expansion.JoinInjective | src/anthias_server/app/playlist_eval.py:130-138 | the slash-joined ids identify the chain of items |
| Expansion.SplitJoin | src/anthias_server/app/playlist_eval.py:130-138 | splitting an occurrence id at its slashes gives back the chain of primary keys |
| Expansion.InWalk | src/anthias_server/app/playlist_eval.py:104-151 | below any node, the walk yields a trail iff it starts there, is linked, fits the depth cap and repeats no playlist |
| Expansion.TrailsExact | src/anthias_server/app/playlist_eval.py:97-151 | for any database, cyclic or multi-parent included, the occurrences are exactly the trails from a root to an asset item |
| ExpansionOrder.TrailsInOrder | src/anthias_server/app/playlist_eval.py:97-112 | output is strictly increasing by root key, then (position, id) per level |
| ExpansionOrder.OccurrencesIdentified | src/anthias_server/app/playlist_eval.py:48-62 | for any database, occurrence ids are pairwise distinct and every path has at most 8 playlists |
| OccurrenceLaws.ExpandIsTrails | src/anthias_server/app/playlist_eval.py:130-138 | occurrence by occurrence, path, asset and id are those of the trail: the whole chain of playlists, nothing cut |
| OccurrenceLaws.OccurrencesAreChains | src/anthias_server/app/playlist_eval.py:71-151 | from the stored rows: each occurrence is a chain of at most eight playlists from a root to an item's asset, and each such chain has an occurrence |
| OccurrenceLaws.OutputOrder | src/anthias_server/app/playlist_eval.py:74-78 | two occurrences stand in the order of their roots, or of the first items at which they part, by (position, id) |
| ExpansionExact.ChainUnique | src/anthias_server/app/models.py:484-511 | with one parent per playlist, a playlist is entered in one way only |
| ExpansionExact.ChainNeverRepeats | src/anthias_server/app/playlist_eval.py:110-116 | then no walk from a root meets a playlist twice, so the cycle check never fires |
| ExpansionExact.AssetItemPlaysOnce | src/anthias_server/app/playlist_eval.py:84-151 | then an asset item plays exactly once if its playlist has fewer than 8 ancestors up to the root, and not at all otherwise |
| ExpansionExact.OccurrencePlaysAssetItem | src/anthias_server/app/playlist_eval.py:126-151 | nothing but asset items is emitted |
| Expanders.GroupByPlaylist | src/anthias_server/app/playlist_eval.py:85-89 | one pass over the ordered items gives each playlist its items in order |
| Expanders.Expander.WalkFrom | src/anthias_server/app/playlist_eval.py:104-147 | the appending recursive walk adds exactly the trails below a node, in order |
| Expanders.ExpandOccurrences | src/anthias_server/app/playlist_eval.py:71-151 | the evaluator's own form of the flattening is the list those laws speak of |
| Evaluation.EvaluatePlaylist | src/anthias_server/app/playlist_eval.py:167-186 | the active list and the deadline of one instant, of which the next two laws speak |
| OccurrenceLaws.ActiveExact | src/anthias_server/app/playlist_eval.py:154-186 | the active list takes from the flattened one, in its order, exactly the occurrences whose asset and every playlist above it are enabled and open |
| OccurrenceLaws.DeadlineExact | src/anthias_server/app/playlist_eval.py:189-210 | the deadline is 60 s ahead iff some enabled occurrence on an enabled path is off the screen at some instant, and there is none otherwise |
| Evaluation.NoDeadlineIff | src/anthias_server/app/playlist_eval.py:189-210 | no deadline iff every candidate on an enabled path is active at every instant |
| Evaluation.NoDeadlineNoChange | src/anthias_server/app/playlist_eval.py:189-210 | without a deadline the active list is identical at all instants, for an unchanged database |
| Evaluation.ActiveIdsDistinct | src/anthias_viewer/scheduling.py:48-59 | the slot identity the viewer keys on is unique in every evaluated list |
| Rotation.Reordered | src/anthias_viewer/scheduling.py:217-239 | a membership-preserving refresh keeps the order of play by slot identity |
| Rotation.Skips | src/anthias_viewer/scheduling.py:159-173 | the walk passes over played-out occurrences only, and stops at the first other one |
| SchedulerLaws.NewScheduler | src/anthias_viewer/scheduling.py:88-107 | a new scheduler plays the listing from its start, with nothing played and nothing asked for |
| SchedulerLaws.MarksSurviveIff | src/anthias_viewer/scheduling.py:259-283 | a played mark survives an update iff the occurrences under its playlist are the same before and after |
| SchedulerLaws.UpdateOrder | src/anthias_viewer/scheduling.py:213-250 | an update takes the listing's own order, except that a shuffled play-through of the same occurrences keeps its order, place and pass count |
| SchedulerLaws.UpdatePlace | src/anthias_viewer/scheduling.py:245-250 | a changed list starts counting passes over and keeps the place, modulo its length |
| SchedulerLaws.RefreshIdle | src/anthias_viewer/scheduling.py:204-211 | with no newer mtime, fewer than five passes ended and no deadline reached, a refresh changes nothing |
| SchedulerLaws.RefreshDue | src/anthias_viewer/scheduling.py:204-211 | with a newer mtime or a deadline reached it brings the occurrences and fields of the new evaluation |
| SchedulerLaws.ReshuffleIff | src/anthias_viewer/scheduling.py:206-240 | under shuffle and with no newer mtime a new order is taken iff five passes have ended, or the deadline is reached and the occurrences changed |
| SchedulerLaws.NewerMtimeReordersIff | src/anthias_viewer/scheduling.py:204-240 | under shuffle a newer mtime brings a new order iff the occurrences changed |
| SchedulerLaws.PassesCounted | src/anthias_viewer/scheduling.py:164-165 | over any calls, the pass counter goes up by how often the walk passed the end of the list |
| SchedulerLaws.FivePassesThenReshuffle | src/anthias_viewer/scheduling.py:124-211 | over a run of calls on an unchanged, windowless database, the installed order is played until the list's end was passed five times, and the next call takes a new one |
| SchedulerLaws.CurrentIsShown | src/anthias_viewer/scheduling.py:124-190 | the current asset is the one just shown |
| SchedulerLaws.JumpLeavesRotation | src/anthias_viewer/scheduling.py:127-143 | a jump shows the asset asked for and leaves the rotation as it was; one that cannot be shown is dropped |
| PlayOnce.ReorderedPermutation | src/anthias_viewer/scheduling.py:217-239 | the refreshed list is a permutation of the new evaluation, with no slot lost or doubled |
| PlayOnce.UpdateConsistent | src/anthias_viewer/scheduling.py:213-257 | each exit of update_playlist keeps: the membership map is exactly that of the list, played sets lie within it, the index is in range, identities are distinct |
| PlayOnce.StepConsistent | src/anthias_viewer/scheduling.py:124-190 | and so does every call, jump and "previous" |
| PlayOnce.RunConsistent | src/anthias_viewer/scheduling.py:88-283 | hence at every point of every run of a new scheduler |
| PlayOnce.PlayedOnceBetweenChanges | src/anthias_viewer/scheduling.py:109-122 | in every run of a new scheduler, if the rotation returns an occurrence of a play-once playlist twice, that playlist's occurrences in the list changed in between |
| CacheAgreement.RefreshAgrees | src/anthias_viewer/scheduling.py:192-211 | one refresh leaves a list that agrees with an evaluation at least as new as the mtime it saw |
| CacheAgreement.RunAgrees | src/anthias_viewer/scheduling.py:192-257 | in every run and history of the database, after every refresh the list is a permutation of an evaluation of a version at least as new as the refresh saw, made less than 60 s before or, without a deadline, right at every instant |
| RefreshLaws.QuietUpdate | src/anthias_viewer/scheduling.py:217-257 | a refresh that brings no other occurrences leaves every slot's identity, the place, a pending reverse and all played marks as they were, shuffled or not |
| RefreshLaws.RefreshesUnseen | src/anthias_viewer/scheduling.py:213-257 | position kept: such refreshes before any of a row of calls do not change the sequence of occurrences shown |
| RefreshLaws.AppendKeepsNext | src/anthias_viewer/scheduling.py:245-250 | with shuffle off, occurrences added at the end do not start the list over: the next one is still next |
| RotationLaws.BlankIffAllPlayedOut | src/anthias_viewer/scheduling.py:144-178 | with or without a pending reverse, nothing is shown iff every occurrence is played out |
| RotationLaws.ShowsFirstUnplayed | src/anthias_viewer/scheduling.py:152-173 | the occurrence shown is the first in cyclic order not played out, and the index moves just past it |
| RotationLaws.CallShows | src/anthias_viewer/scheduling.py:152-190 | with only repeating playlists, call k shows position (index + k) mod n, for every k |
| RotationLaws.FirstCycleShows | src/anthias_viewer/scheduling.py:144-190 | with nothing played out yet, play-once playlists or not, one cycle shows every occurrence once in order |
| RotationLaws.PreviousShowsBefore | src/anthias_viewer/scheduling.py:152-158 | from any state, "previous" shows the occurrence just before the current one iff that one may still be shown |
| RotationLaws.PreviousThenNext | src/anthias_viewer/scheduling.py:144-188 | from any state, "previous" and another call return to the occurrence that was left, index restored, iff no play-once playlist holds it and the one before may still be shown or no other may |
| RotationLaws.PreviousCanLoseThePlace | src/anthias_viewer/scheduling.py:144-188 | a state a first call leaves in which they do not |
| RotationCycle.CycleShowsAll | src/anthias_viewer/scheduling.py:144-188 | from any mix of repeating, unplayed and played-out occurrences, any n calls over a list of n show every occurrence not played out at their start |
| RotationCycle.PlayOnceShownOnce | src/anthias_viewer/scheduling.py:109-122 | and no number of calls shows a play-once occurrence twice |
| Scheduling.GenerateAssetList | src/anthias_viewer/scheduling.py:62-84 | one slot per active occurrence, with its id, its asset and the ids of the playlists above it that do not repeat, root first; in order, or in any order under shuffle; identities distinct |
| Scheduling.Members | src/anthias_viewer/scheduling.py:272-278 | the membership map, built slot by slot, is the membership of the list |
| Scheduling.Scheduler.constructor | src/anthias_viewer/scheduling.py:88-107 | a new scheduler satisfies the invariant |
| Scheduling.Scheduler.SyncPlayOnceState | src/anthias_viewer/scheduling.py:259-283 | in place, the reset of which MarksSurviveIff speaks |
| Scheduling.Scheduler.UpdatePlaylist | src/anthias_viewer/scheduling.py:213-257 | the in-place update is the transition, with the invariant kept at every exit |
| Scheduling.Scheduler.RefreshPlaylist | src/anthias_viewer/scheduling.py:192-211 | in place, the refresh of which RefreshIdle, RefreshDue and ReshuffleIff speak |
| Scheduling.Scheduler.MarkPlayed | src/anthias_viewer/scheduling.py:117-122 | likewise for the played sets |
| Scheduling.Scheduler.FindNext | src/anthias_viewer/scheduling.py:144-178 | the loop over one cycle, with its one backward step, is the search for the first occurrence not played out |
| Scheduling.Scheduler.GetNextAsset | src/anthias_viewer/scheduling.py:124-190 | the whole call is the transition the run theorems speak of, jump and blank cases included |
| Ordering.MirrorPlayOrder | src/anthias_server/app/models.py:582-619 | in place, the items become the mirrored order, and exactly the rows that moved are written back |
| Ordering.MirrorKeepsPositions | src/anthias_server/app/models.py:582-619 | asset items permute among their own positions; nested playlists keep theirs |
| Ordering.MirrorFollowsPlayOrder | src/anthias_server/app/models.py:582-619 | afterwards positions are non-decreasing in play_order |
| Ordering.MirrorFixpoint | src/anthias_server/app/models.py:582-619 | items already in play_order are left alone |
| Ordering.MirrorIdempotent | src/anthias_server/app/models.py:582-619 | a second run changes nothing, with ties in position or play_order |
| ScheduleOrdering.ListedIsSequence | src/anthias_server/app/helpers.py:300-314 | listing groups ref by ref, then the rest, is one sort by (first mention, prior order) |
| ScheduleOrdering.SequenceByRank | src/anthias_server/app/helpers.py:300-314 | every item is listed exactly once, unmentioned ones last in prior order |
| ScheduleOrdering.SequencePlaces | src/anthias_server/app/helpers.py:271-283 | of two rows, the one whose ref is mentioned first stands first, a mentioned one before an unmentioned one, otherwise the one that stood first before |
| ScheduleOrdering.GroupsStayTogether | src/anthias_server/app/helpers.py:271-283 | an asset's occurrences stay contiguous and in prior order |
| ScheduleOrdering.RenumberedReadsBack | src/anthias_server/app/helpers.py:314-320 | positions become exactly 0 to n-1, and reading the rows back gives the listed order |
| ScheduleWrites.RenumberDefault | src/anthias_server/app/helpers.py:289-320 | the dict-and-set loops compute that order, and the items end up numbered by it |
| SavedOrder.SaveScheduleOrdering | src/anthias_server/app/helpers.py:271-320 | both writes together: read back and joined, the rows stand in the specified order with the new play orders |
| ScheduleWrites.SavePlayOrders | src/anthias_server/app/helpers.py:284-287 | each listed asset's play_order is its last place among the listed assets; no other asset changes |
| SavedOrder.SavedIsReadBack | src/anthias_server/app/helpers.py:284-320 | the specified outcome is what querying the renumbered items joined with the new play orders returns |
| SavedOrder.MirrorIdleIff | src/anthias_server/app/models.py:599-619 | on densely numbered items the mirror does nothing iff play_order never drops along them |
| SavedOrder.SavedOrderSurvivesMirrorIff | src/anthias_server/app/helpers.py:271-320 | for any rows and refs, repeats included, a saved order survives the next mirror iff listed assets are last mentioned in order of first mention, unlisted ones climb in prior order, and none of these is below a listed one |
| SavedOrder.DistinctMentionsAgree | src/anthias_server/app/helpers.py:284-287 | the first of these holds by itself when no asset is listed twice |
| SavedOrder.RepeatedMentionIsUndone | src/anthias_server/app/helpers.py:271-320 | a witness: A, B and A again, every row listed, and the mirror undoes the order |
| ScheduleWrites.ReorderPlaylistItems | src/anthias_server/app/helpers.py:243-268 | refused untouched iff an id is unknown; otherwise all items are renumbered, listed ones first |
| ScheduleWrites.ReorderReadsBack | src/anthias_server/app/helpers.py:243-268 | read back, the playlist is the ids as listed, then the others in the order they had |
| ScheduleWrites.ReorderDenseIff | src/anthias_server/app/helpers.py:257-268 | positions never collide, and are exactly 0 to n-1 iff no id is listed twice |
| ScheduleWrites.RepeatedIdLeavesGap | src/anthias_server/app/helpers.py:257-268 | a witness: two items, one listed twice, end at 1 and 2 |
| ScheduleWrites.ScheduleAssetOccurrence | src/anthias_server/app/helpers.py:136-186 | the new item lands directly after the asset's last occurrence, or at the end, in a list numbered 0 to n; refused while processing |
| SweepLock.SetIfAbsent | src/anthias_server/celery_tasks.py:1539-1554 | the key is held afterwards, and taken iff it was free |
| SweepLock.CompareAndDelete | src/anthias_server/celery_tasks.py:264-273 | a release removes the key only with the releaser's own token |
| SweepLock.ExclusiveIff | src/anthias_server/celery_tasks.py:258-273 | at most one sweep is in its body in every interleaving of starts, aborts, kills, expiries and releases, iff the TTL covers the longest a run can last |
| SweepLock.SweepsExclusive | src/anthias_server/celery_tasks.py:156-168 | both deployed sweeps are exclusive, since their TTL is their hard limit |
| SweepLock.OverlapReached | src/anthias_server/celery_tasks.py:258-263 | with a shorter TTL, a run with two sweeps in their bodies |
| SweepLock.HolderKeepsKey | src/anthias_server/celery_tasks.py:1593-1597 | while a sweep is in its body no event of any task takes its key |
| SweepLock.OrphanExpires | src/anthias_server/celery_tasks.py:258-263 | whatever was killed or lost at some point of a run: once a TTL has passed the key is free, unless a later sweep has taken it since; attempts that find it held do not prolong it |
| SweepLock.DeployedOrphansExpire | src/anthias_server/celery_tasks.py:156-168 | as deployed, that is half an hour for revalidation and five minutes for the reconcile sweep |
| SweepLock.Broker.TryAcquire | src/anthias_server/celery_tasks.py:1530-1554 | calls interleaved in any way are runs of the protocol; with the deployed TTLs, whoever is told to run is alone in its body |
| SweepLock.Broker.EndBody | src/anthias_server/celery_tasks.py:1581-1597 | a body that completes, hits the soft limit or fails goes on to its release, and only a failure is reported |
| SweepLock.Broker.Release | src/anthias_server/celery_tasks.py:1782-1787 | the releaser's own key goes, another holder's stays |
| Revocation.FramesSafeIff | src/anthias_server/app/consumers.py:72-96 | no frame goes to a user resolved before a revoked change, in every interleaving and with any broadcasts lost, iff stamps precede session lookups and bumps follow commits |
| Revocation.DeployedFramesSafe | src/anthias_server/app/consumers.py:110-185 | so it is as deployed |
| Revocation.ReconnectSurvives | src/anthias_server/app/consumers.py:212-258 | a handshake that arrives after a bump is never closed by that bump's event however late; a socket from before it always is |
| Revocation.SendsIff | src/anthias_server/app/consumers.py:110-185 | as deployed, in every run, an open socket gets frames iff auth is off, or its login holds and no bump came since its handshake arrived |
| Revocation.ConnectIff | src/anthias_server/app/consumers.py:187-207 | a handshake is accepted on the same terms and closed otherwise |
| Revocation.ForceIff | src/anthias_server/app/consumers.py:212-258 | a revocation event closes every open socket except those no older than a bump of this very process |
| Consumers.Serve | src/anthias_server/app/consumers.py:72-406 | whatever is called on handshakes, consumers, transactions and the counter in whatever order, the process goes through a run of the protocol as deployed, and no frame goes out under a login that a revoked change has superseded |
| Consumers.Process.Handshake | src/anthias_server/app/consumers.py:91-96 | the stamp is taken before any lookup: the handshake is the protocol's stamped arrival |
| Consumers.Process.DeliverFrame | src/anthias_server/app/consumers.py:260-306 | a frame goes out iff still authorized, and one that does was safe to send |
| Consumers.Process.DeliverForce | src/anthias_server/app/consumers.py:212-258 | a revocation event reaching a consumer is the protocol's, whatever its origin and age |
| Consumers.Process.Commit | src/anthias_server/app/signals.py:57-92 | a transaction's saves count at its commit and their bumps are due only then |
| Consumers.Process.RunCallback | src/anthias_server/app/consumers.py:388-406 | a due bump is that of a committed change, whether or not its broadcast gets out |
| Consumers.RevokesIff | src/anthias_server/app/signals.py:54-81 | every save of a user revokes, unless it names its fields and they are no other than last_login |
| Consumers.ServeTransaction | src/anthias_server/app/signals.py:76-92 | a transaction rolled back leaves no event: it revokes nobody |
| WebviewModel.EveryRunTruthful | src/anthias_viewer/__init__.py:1779-2118 | in every run with crashes, respawns, version skew and failed calls, each page load went out with that asset's headers or none, and the cache says what the live process last loaded: its URL, and for a page its headers unless the load was bare |
| WebviewModel.PageShownValid | src/anthias_viewer/__init__.py:1961-2046 | a page left as unchanged is the live process's last load, with the headers asked for iff there are none or that load was not bare; so is a page loaded; a deferred one sent nothing and is retried |
| WebviewModel.NavigatedValid | src/anthias_viewer/__init__.py:2022-2035 | a load is bare iff a respawn came between or the process does not take headers |
| WebviewModel.UnchangedWithoutHeaders | src/anthias_viewer/__init__.py:1961-2046 | a witness: after a respawn inside the load, the next tick stages the headers, finds the page unchanged and leaves it without them |
| WebviewModel.ImageShownValid | src/anthias_viewer/__init__.py:2092-2118 | a skipped image has the URL of the live process's last load |
| WebviewModel.AppliedHolds | src/anthias_viewer/__init__.py:1907-1958 | "applied" means the live process holds this asset's headers or none |
| WebviewModel.SentSound | src/anthias_viewer/__init__.py:1779-1821 | loads go out clean, and a retry runs on a process that holds no headers |
| WebviewModel.LoadedSound | src/anthias_viewer/__init__.py:1825-1878 | success means this load was the last carried out, under the headers then staged |
| WebviewModel.LaunchedValid | src/anthias_viewer/__init__.py:1630-1742 | the resets restore the invariant whether or not the spawn succeeds |
| WebviewModel.BouncedValid | src/anthias_viewer/__init__.py:2714-2723 | after a bounce no URL is claimed; without one nothing changes |
| WebviewLaws.UnchangedIff | src/anthias_viewer/__init__.py:2013-2017 | a page is skipped iff the browser is up and URL, headers and SSL policy are all as remembered |
| WebviewLaws.DeferredIff | src/anthias_viewer/__init__.py:2005-2046 | a load is put off iff there is one to make and the headers could be neither staged nor denied |
| WebviewLaws.AppliedIff | src/anthias_viewer/__init__.py:1907-1958 | headers are pushed while the slot is believed to exist; a denial, and nothing else, ends that |
| WebviewLaws.PageAppears | src/anthias_viewer/__init__.py:1961-2035 | when nothing goes wrong the page asked for is on screen, given its headers by a process that takes them |
| WebviewLaws.SkewTolerated | src/anthias_viewer/__init__.py:1825-1878 | a process that knows only the older signature still shows the page, and is asked that way from then on |
| WebviewLaws.LegacyOnly | src/anthias_viewer/__init__.py:1878-1878 | with the latch off there is one call only |
| WebviewLaws.RespawnRecovers | src/anthias_viewer/__init__.py:1779-1821 | a process gone mid-call is replaced and the load repeated on the new one |
| WebviewLaws.GoneTwice | src/anthias_viewer/__init__.py:1779-1878 | a peer gone twice in one call ends the viewer, without another way being tried |
| WebviewLaws.SurvivorAsked | src/anthias_viewer/__init__.py:1825-1878 | if the replacement does not start, a process that only seemed gone is still asked in the older way |
| WebviewLaws.LaunchForgets | src/anthias_viewer/__init__.py:1630-1684 | relaunching forgets all that was remembered of the old process, its missing slots included |
| WebviewLaws.ImageUnchangedIff | src/anthias_viewer/__init__.py:2107-2110 | an image is skipped iff the browser is up and URL and SSL policy are as remembered |
| WebviewLaws.ImageAppears | src/anthias_viewer/__init__.py:2092-2116 | when nothing goes wrong the image asked for is on screen |
| WebviewLaws.BounceReloads | src/anthias_viewer/__init__.py:2714-2723 | after a bounce nothing is skipped |
| WebviewCache.Run | src/anthias_viewer/__init__.py:1961-2118 | the viewer, updating its globals in place, goes through exactly those runs |
| WebviewCache.Viewer.ViewWebpage | src/anthias_viewer/__init__.py:1961-2046 | in place, the call is the transition the laws speak of |
| WebviewCache.Viewer.ViewImage | src/anthias_viewer/__init__.py:2092-2118 | likewise |
| WebviewCache.Viewer.ApplyRequestHeaders | src/anthias_viewer/__init__.py:1907-1958 | likewise, the latch included |
| WebviewCache.Viewer.SendToWebview | src/anthias_viewer/__init__.py:1779-1821 | likewise, the respawn included |
| WebviewCache.Viewer.LoadViaWebview | src/anthias_viewer/__init__.py:1825-1878 | likewise, the legacy call included |
| WebviewCache.Viewer.LoadBrowser | src/anthias_viewer/__init__.py:1630-1742 | likewise, all resets included |
| WebviewCache.Viewer.ConsumeRotationBounce | src/anthias_viewer/__init__.py:2714-2723 | likewise |
| BoundedOutput.WriteAll | src/anthias_viewer/__init__.py:1361-1399 | after any writes and for any window, text() is the tail of everything written |
| BoundedOutput.BoundedWebviewOutput.Write | src/anthias_viewer/__init__.py:1367-1390 | keeps the retained chunks in agreement with the tail of the whole log |
| BoundedOutput.BoundedWebviewOutput.Text | src/anthias_viewer/__init__.py:1392-1399 | the exact tail of the log |
| BoundedOutput.BoundedWebviewOutput.Retained | src/anthias_viewer/__init__.py:1381-1390 | less than twice the window is retained, and never less than the window |
| Netlink.AttributesRoundTrip | src/anthias_host_agent/ifaddrs.py:57-78 | parsing undoes encoding for every attribute list |
| Netlink.TruncationIsPrefix | src/anthias_host_agent/ifaddrs.py:62-78 | truncating any payload yields a prefix of its attributes |
| Netlink.IterAttributes | src/anthias_host_agent/ifaddrs.py:62-78 | on arbitrary bytes the loop ends in bounds with the records the format holds |
| Netlink.ParseAddress | src/anthias_host_agent/ifaddrs.py:81-112 | on arbitrary bytes, the address the message announces, if any |
| Netlink.AddressRoundTrip | src/anthias_host_agent/ifaddrs.py:81-112 | an encoded address message gives back its address, IFA_LOCAL before IFA_ADDRESS |
| Netlink.AddressExact | src/anthias_host_agent/ifaddrs.py:81-112 | exactly when an address is announced: the interface exists, the family is IPv4 with four bytes or IPv6 with sixteen, and these are the last local value, or the last peer one where no local value is non-empty |
| Netlink.BuildDumpRequest | src/anthias_host_agent/ifaddrs.py:115-125 | the request byte for byte |
| Netlink.RequestParses | src/anthias_host_agent/ifaddrs.py:115-125 | which parses as one RTM_GETADDR message of its full length, for all families |
| Netlink.ParseDump | src/anthias_host_agent/ifaddrs.py:128-173 | on arbitrary bytes the loop ends in bounds with the addresses of its messages, or the kernel's error |
| Netlink.DumpRoundTrip | src/anthias_host_agent/ifaddrs.py:128-173 | an encoded dump gives back exactly its announced addresses in order, and ignores what follows its end |
| Netlink.DumpError | src/anthias_host_agent/ifaddrs.py:147-165 | an error message ends the dump as its errno, as done if it acknowledges, and as EPROTO if it is cut short |
| Netlink.DumpCut | src/anthias_host_agent/ifaddrs.py:137-146 | a dump cut inside a message keeps what came before and is not done |
| Netlink.SampleParses | src/anthias_host_agent/ifaddrs.py:25-52 | a dump given byte for byte: field order, offsets and byte order are the kernel's |
| UndervoltageLatch.HistoryNeverLost | src/anthias_common/undervoltage.py:232-385 | over a boot of calls one after another, whatever reads and writes fail, seen stays seen, the first time stays, the count never drops |
| UndervoltageLatch.LatchCountsEdges | src/anthias_common/undervoltage.py:324-435 | with no failures, from nothing stored for this boot: the count is the number of false-to-true edges over recorded and rendered readings, active the last reading, first and last sighting their times |
| UndervoltageLatch.LatchInventsNothing | src/anthias_common/undervoltage.py:324-435 | with any failures the stored count never exceeds the true number of edges |
| UndervoltageLatch.WarnsIff | src/anthias_common/undervoltage.py:388-446 | with no failures, a render warns iff the sensor has gone to true by then |
| UndervoltageLatch.RenderShowsLive | src/anthias_common/undervoltage.py:388-446 | whatever fails, a render shows the sensor's own word when it has one, and warns of what it sees |
| UndervoltageLatch.ShownIsStored | src/anthias_common/undervoltage.py:301-435 | with no failures, what is returned or shown is what is then stored |
| UndervoltageLatch.NothingWritten | src/anthias_common/undervoltage.py:301-435 | without a sensor or a boot id nothing is ever stored |
| LatchInterleaving.HistoryKeptIff | src/anthias_common/undervoltage.py:232-435 | reads and writes of any calls interleaved and failing in any way: the stored history is kept at every step iff every write covers, in count and first sighting, what is stored by then |
| LatchInterleaving.UndisturbedKeepsHistory | src/anthias_common/undervoltage.py:232-435 | so it is wherever no other write lands between a call's read and its write |
| LatchInterleaving.RunIsAtomic | src/anthias_common/undervoltage.py:301-435 | there, interleaved calls amount to atomic ones in the order they complete |
| LatchInterleaving.InterleavedCountsEdges | src/anthias_common/undervoltage.py:301-435 | there, with no failures, the count is exact over the readings as calls complete |
| LatchInterleaving.InterleavedInventsNothing | src/anthias_common/undervoltage.py:301-435 | there, with any failures, no more than the true edges are counted |
| LatchInterleaving.LandingKeepsHistoryIff | src/anthias_common/undervoltage.py:324-385 | per write: the exact condition on what was read against what is stored |
| LatchInterleaving.LandingCountsIff | src/anthias_common/undervoltage.py:324-385 | per write: likewise for the count being exact |
| LatchInterleaving.InterleavedWritersLoseCount | src/anthias_common/undervoltage.py:301-385 | a witness: one slow writer lands after two counted sightings and leaves one |
| UndervoltageLatch.LatchKey.RecordObservation | src/anthias_common/undervoltage.py:301-385 | the recording, step by step, is the transition the boot theorems speak of |
| UndervoltageLatch.LatchKey.GetState | src/anthias_common/undervoltage.py:388-435 | likewise for a page render |
| AspectFit.RoundHalfEven | src/anthias_viewer/gst_fbdev_player.py:136-140 | the nearest integer of the exact quotient, and the even one of two equally near |
| AspectFit.FitBounded | src/anthias_viewer/gst_fbdev_player.py:123-143 | both sides even and at least 2; inside the framebuffer iff it is at least 2x2 |
| AspectFit.FitExact | src/anthias_viewer/gst_fbdev_player.py:123-143 | each side less than two pixels from the exact rational fit of the display shape, square pixels if the aspect is invalid |
| AspectFit.NothingToFit | src/anthias_viewer/gst_fbdev_player.py:123-124 | with nothing to fit, or nowhere to fit it, the answer is the framebuffer's own size |

## Left out

- Django, Redis, Celery and Channels internals: rows are sequences and maps, a Redis key is a token with an expiry or a record, a broadcast may be lost.
- Real time zones and daylight saving: local time is taken as given and linear.
- Mtime granularity: a database version is its own mtime; equal mtimes for different versions are not modelled.
- Float rounding: `round` acts on the exact quotient.
- Playlist primary keys are ordered integers instead of UUID text; the recreation of a missing Default playlist is not modelled.
- The shuffle setting is constant within one call; the day list is a set, since only membership is used.
- PlaylistEdits.EveryRunKeepsTree: says nothing of depth, because the nesting gate does not bound the depth of what is nested; editing asset items does not touch the tree and is not an edit here.
- Scheduling.Scheduler.UpdatePlaylist: takes the generated list as a parameter instead of calling the generator, so that one run can be set against one history of the database.
- SweepLock.ExclusiveIff: a key is alive through its last second; Redis restarts and flushes are not modelled; `lag` is how late a hard kill may land, 0 as deployed.
- SweepLock.Broker.EndBody: the rows a sweep updates are left out.
- Consumers.Process.DeliverFrame: a send that fails as the socket closes counts as not sent; other send errors escape and are left out.
- Consumers.Process.RunCallback: which due change a bump is booked under is left open; callbacks of different threads may run in any order.
- WebviewModel.PageShownValid: a skipped load is known by its URL only, as in the cache, so an image at the same URL counts; `setReloadInterval` and the cache-busting query are left out. A process that has accepted the headers slot is taken not to deny it later.
- WebviewModel.EveryRunTruthful: a run ends when an error escapes, as the viewer does; spawn budgets, video playback and process signals are left out.
- BoundedOutput.BoundedWebviewOutput.Write: chunks are text already; decoding of bytes and the lock are left out.
- Netlink.ParseAddress: an address is its family and raw bytes, interface names are a map, and native byte order is little-endian.
- UndervoltageLatch.LatchCountsEdges: for calls one after another; LatchInterleaving says what remains when they interleave. Decoding of stored fields is one `Garbage` case.
- SavedOrder.SaveScheduleOrdering: refs arrive as asset or playlist references; splitting the `playlist:` prefix is left out.
- Media processing, storage health, WiFi setup, downloads, telemetry, URL probing: foreign processes, hardware and the network, or members decided by one lookup.
