# Verified model of the gathering service

A Dafny model of the social back end: its tables, the service calls that change them, and the list
endpoints that read them. The tables of `prisma/schema.prisma` are maps and sets with their primary and
unique keys; every service call is one atomic step that either does all it promises or leaves the
tables alone. Relations are no constraints of the database (`relationMode` in the schema): deleting a
row follows them, inserting one checks nothing.

* `Prelude`, `Paging`, `Ties`: the theory behind every list endpoint. A strict or date-window cursor query,
  an outer query that may hide rows, the rule that decides whether there is a next cursor, and the
  walk that follows the cursors, compared with sorting all matching rows once; also for keys that tie.
* `FeedQueries`, `FeedFold`, `FeedJoin`, `FeedReader`: the feed lists. The join of feeds with images
  and participants is folded back by a loop over flat rows; the fold is proved to undo the join and
  one request to answer like the paging theory says. The loops fill dictionaries keyed by UUID
  strings, which JavaScript enumerates in insertion order (section 10.1.11.1 of ECMA-262, 2021).
* `GatheringQueries`, `UserQueries`: gathering, friend, request, search and notification lists.
* `Tables`, `Social`, `SocialSafety`: friendships, gatherings, invitations, feeds, groups and reports
  as transitions, and what every run of them keeps. `SocialStore` holds the same calls as methods of a
  class that updates its tables in place, with rollback; each is proved against its transition.
* `GatheringEffects`, `FeedEffects`, `FriendEffects`, `GroupEffects`: what each call does to everybody's
  lists, in the columns the queries filter by. Who finds a new gathering or feed, which entry a call
  moves from which list to which, when a call goes through, and which call undoes which.
* `GroupSize`: how large groups become over a run, and when members have a group at all.
* `RequestRace`: friend requests whose check and insert are separate, interleaved arbitrarily.
* `Accounts`, `AccountSafety`, `AccountEffects`, `AccountIds`, `AccountStore`: login, restore,
  registration, refresh tokens, logout, withdrawal and account ids, again as transitions and as a
  class, with theorems over whole runs and the history of token events.

Clocks, generated identifiers, issued tokens, the verdict of the token verifier and the rows an
unordered query returns are parameters of the calls, so the theorems hold for all of them.

## What turned out not to hold

* A date-window walk with `limit` or more gatherings on the boundary date never ends
  (`GatheringQueries.DescendingWalkIff`, `AscendingWalkIff`, `BoundaryWalksNeverEnd`).
* The ascending list answers outside its range when its cursor is outside (`AllIsInRangeIff`,
  `EarlyCursorLeaks`, `InvertedRangeLeaks`).
* A feed page shortened by a withdrawn writer ends the walk (`FeedQueries.FeedWalkIsCompleteIff`,
  `WithdrawnWriterHidesOwnFeed`).
* Members can be added to a group that does not exist (`GroupSize.RunKeepsMembersHaveGroupsIff`,
  `MemberOfNoGroup`).
* Registration looks for duplicate emails among withdrawn rows only (`AccountSafety.RegisterTwice`,
  `StepKeepsEmailsIff`, `RunKeepsEmailsIff`).
* Active account ids can be equal. The check looks at one arbitrary row, so an expired row can hide an
  active one (`AccountIds.RegistrationMayShareIff`, `ChangeMayShareIff`, `ExpiredRowHidesActive`), and a
  login restores a withdrawn row without any check (`RestoredRowShares`); `StepKeepsAccountIdsIff` and
  `RunKeepsAccountIdsIff` say exactly when ids stay different. The walks over lists sorted by name and
  account id therefore assume that the listed users differ in the two, and `UserQueries.TiedUserWalkIff`
  says exactly what happens when they do not.
* Crossed friend requests can leave two rows for a pair (`RequestRace.CrossedRequests`,
  `RunKeepsPairIff`). A reject may then delete the friendship (`RejectEndsFriendship`) and leave an
  invitation between users who are no friends any more (`RejectKeepsInvitedIff`,
  `RejectLeavesInvitation`).
* A group's gathering can be made by somebody outside the group, who then takes no part in it and
  finds it on none of their gathering lists (`GatheringEffects.HostTakesPartIff`, `HostOutsideGroup`).
* A report does not keep the reported user away for good: the row goes with it, the refusal meant for
  reported users is never given, and either of the two may ask again at once
  (`FriendEffects.PartedMayAskAgain`, `RequestErrors`). The reporter no longer finds the other in a
  search (`UserQueries.ReportedIsNotFound`).
* An account-id change at the very instant of creation does not start a cooldown
  (`AccountSafety.NextChangeCoolsDownIff`, `TwoChangesAtOnce`).
* A request may name ten friends, so a new group may have eleven members, one above the limit that
  additions respect (`GroupSize.NewGroupHasTenIff`, `GroupOfEleven`, `RunBoundsMembers`).

## Model

| member | source | states |
|---|---|---|
| `Prelude.DaysBelow` | src/utils/date/index.ts:1-11 | a floored day difference is below n exactly when fewer than n times 86 400 000 ms have passed, for dates in either order |
| `Paging.WalkIsVisitedListing` | src/domain/helpers/get-cursor.ts:70-77 | following the handed-out cursors from any first cursor terminates, and returns the shown part of the once-sorted list up to and including the page with the first row the outer query hides |
| `Paging.WalkIsListing` | src/domain/helpers/get-cursor.ts:12-19 | when the outer query hides nothing, the walk is the sorted list of all matching rows after the first cursor: no row twice, none missing |
| `Paging.WalkIsSorted` | src/domain/helpers/get-cursor.ts:70-77 | the rows of any number of requests are sorted and hold none twice |
| `Ties.DropUpToKeeps` | src/infrastructure/repositories/friend/friends.prisma.repository.ts:51-59 | over a list sorted as far as its keys tell, the strict cursor comparison keeps exactly a tail |
| `Ties.TieWalkIsCompleteIff` | src/domain/helpers/get-cursor.ts:12-31 | when keys tie, in whatever order the database puts tied rows: the walk ends, and misses no row if and only if no page ends between two rows of one key |
| `Paging.WalkIsCompleteIff` | src/domain/helpers/get-cursor.ts:70-77 | the walk returns every shown row if and only if no shown row lies behind the page in which the first hidden row falls |
| `Paging.CutWalkIsVisited` | src/domain/helpers/get-cursor.ts:70-77 | over a list already sorted, page by page reading stops after the first page that is not full once hidden rows are dropped |
| `Paging.StopsHere` | src/domain/helpers/get-cursor.ts:70-77 | a page without next cursor is the last one visited, and everything visited of the rest of the list |
| `Paging.AfterIsTail` | src/infrastructure/repositories/feed/feeds-prisma.repository.ts:281-292 | the rows strictly after the i-th row of a sorted list, sorted, are the tail of that list: why a strict cursor resumes without gap or overlap |
| `Paging.SortedUnique` | src/infrastructure/repositories/feed/feeds-prisma.repository.ts:169-172 | two sorted lists with the same elements are equal, so sorting again in the outer query restores the page |
| `Paging.EdgePrefix` | src/infrastructure/repositories/gathering/gatherings-prisma.repository.ts:50-66 | rows on the boundary date of a range are exactly the first ones of the sorted list, as many as there are of them |
| `Paging.WindowWalkIsListing` | src/infrastructure/repositories/gathering/gatherings-prisma.repository.ts:50-66 | a walk that starts on the boundary of a date range returns the whole sorted range when fewer than `limit` rows lie on the boundary |
| `Paging.WindowPageRepeats` | src/infrastructure/repositories/gathering/gatherings-prisma.repository.ts:50-66 | with `limit` or more rows on the boundary the second page equals the first |
| `Paging.WindowWalkEndsIff` | src/infrastructure/repositories/gathering/gatherings-prisma.repository.ts:50-66 | a date-window walk ends if and only if fewer than `limit` rows lie on the boundary; otherwise any number of requests returns copies of the first page |
| `FeedQueries.FeedWalk` | src/infrastructure/repositories/feed/feeds-prisma.repository.ts:228-333 | feed walk in both directions: it ends, with the active-writer feeds up to the page holding the first feed of a withdrawn writer |
| `FeedQueries.FeedWalkIsSorted` | src/infrastructure/repositories/feed/feeds-prisma.repository.ts:285-292 | whatever number of requests is made, the feeds returned are globally sorted and none comes twice |
| `FeedQueries.OwnFeedWalk` | src/infrastructure/repositories/feed/feeds-prisma.repository.ts:297-333 | for an active user the walk over their own feeds is the sorted list of all matching feeds after the first cursor |
| `FeedQueries.ActiveWritersWalk` | src/infrastructure/repositories/feed/feeds-prisma.repository.ts:228-295 | the "all" list and the blocked list are exact as long as no writer on them has withdrawn |
| `FeedQueries.FeedWalkIsCompleteIff` | src/infrastructure/repositories/feed/feeds-prisma.repository.ts:136-137 | the inner join that drops withdrawn writers loses feeds exactly when a shown feed lies behind the page with the first hidden one |
| `FeedQueries.WithdrawnWriterHidesOwnFeed` | src/infrastructure/repositories/feed/feeds-prisma.repository.ts:228-295 | an input that loses one: with pages of one, a feed of a withdrawn guest makes the whole walk of the "all" list empty although the host's own feed is on it |
| `FeedFold.FindFeeds` | src/infrastructure/repositories/feed/feeds-prisma.repository.ts:175-225 | the row loop yields one entry per feed id in order of first appearance, with distinct urls and first-by-id members of that feed's rows, for rows in any order |
| `FeedFold.FoldSnoc` | src/infrastructure/repositories/feed/feeds-prisma.repository.ts:202-222 | adding one row to the rows of a feed changes its folded entry exactly as the two find-and-push statements do |
| `FeedJoin.FoldKeepsPageOrder` | src/infrastructure/repositories/feed/feeds-prisma.repository.ts:136-173 | on the rows of the join, sorted as the query sorts them, the entries are the chosen feeds with active writers in page order |
| `FeedJoin.ShownUrls` | src/infrastructure/repositories/feed/feeds-prisma.repository.ts:61-86 | the image rows a list shows, in index order, are the url list of the detail view without its empty urls |
| `FeedJoin.FoldUndoesImages` | src/infrastructure/repositories/feed/feeds-prisma.repository.ts:202-207 | the images of an entry are the non-empty urls of the detail view with later duplicates removed, whatever the number of members multiplied into the rows |
| `FeedJoin.NewMemberFollows` | src/infrastructure/repositories/feed/feeds-prisma.repository.ts:169-172 | a member appears for the first time beside the first image and behind the names that came before |
| `FeedJoin.FoldUndoesMembers` | src/infrastructure/repositories/feed/feeds-prisma.repository.ts:209-222 | `withMembers` is exactly the distinct active participants other than the writer, in name order, whatever the number of images multiplied into the rows |
| `FeedJoin.SomeRow` | src/infrastructure/repositories/feed/feeds-prisma.repository.ts:136-142 | the left joins lose no feed whose writer is active |
| `FeedReader.FindVisibleUsersByFeedIds` | src/infrastructure/repositories/feed/friend-feed-visibilities-prisma.repository.ts:23-57 | the grouping loop maps each feed with visible users to exactly its users in row order, and has no entry for other feeds |
| `FeedReader.UsersForHas` | src/infrastructure/repositories/feed/friend-feed-visibilities-prisma.repository.ts:44-55 | a user is grouped under a feed if and only if a row says so |
| `FeedReader.ChosenIsPage` | src/domain/components/feed/feeds-reader.ts:76-89 | the feeds a request chooses, filtered by active writer, are the page of the paging theory with its cursor |
| `FeedReader.UsersForNoRepeats` | prisma/schema.prisma:274-284 | rows with different (feed, user) keys group into lists without repeats |
| `FeedReader.MergedShows` | src/domain/components/feed/feeds-reader.ts:65-74 | a merged entry shows its feed: own fields, images, and the participants or, without a gathering, the users it was shared with, each once |
| `FeedReader.GetFeeds` | src/domain/components/feed/feeds-reader.ts:76-105 | one request returns the page of the paging theory with its cursor, and presents every feed of it in full |
| `FeedReader.RefsAreIndexed` | src/domain/services/feed/feeds.service.ts:52-56 | posted urls carry their position as index |
| `FeedReader.PostedUrlsReadBack` | src/infrastructure/repositories/feed/feeds-prisma.repository.ts:61-86 | round trip: the detail view of a new feed lists exactly the posted urls in posted order |
| `GatheringQueries.DescendingWalkIff` | src/infrastructure/repositories/gathering/gatherings-prisma.repository.ts:31-73 | waiting and ended lists from `maxDate` or any later cursor: the walk ends iff fewer than `limit` gatherings fall on that date, and is then the whole sorted list; otherwise every page is the first |
| `GatheringQueries.DescendingWalkBelow` | src/infrastructure/repositories/gathering/gatherings-prisma.repository.ts:50-62 | from a cursor below `maxDate` the same lists are exact without any hypothesis |
| `GatheringQueries.AscendingWalkIff` | src/infrastructure/repositories/gathering/gatherings-prisma.repository.ts:75-122 | the ascending "all" list from `minDate`, likewise with the gatherings on `minDate` |
| `GatheringQueries.AscendingWalkWithin` | src/infrastructure/repositories/gathering/gatherings-prisma.repository.ts:81-97 | from a cursor above `minDate` and up to `maxDate` the ascending list is exact without any hypothesis |
| `GatheringQueries.BoundaryWalksNeverEnd` | src/infrastructure/repositories/gathering/gatherings-prisma.repository.ts:50-66 | an input for each: one gathering on the boundary, pages of one, and no number of requests ends the walk |
| `GatheringQueries.AllIsInRangeIff` | src/infrastructure/repositories/gathering/gatherings-prisma.repository.ts:81-97 | the ascending list admits gatherings of its range only, whatever the tables hold, if and only if the date of the cursor is in the range |
| `GatheringQueries.EarlyCursorLeaks` | src/infrastructure/repositories/gathering/gatherings-prisma.repository.ts:81-97 | an input: range 10 to 20, cursor on 5, and a gathering on 7 is returned |
| `GatheringQueries.InvertedRangeLeaks` | src/infrastructure/repositories/gathering/gatherings-prisma.repository.ts:81-97 | with `maxDate` before `minDate` nothing is in range, yet a gathering on `minDate` is returned if and only if its id is above the cursor's, because the range guards one alternative only |
| `GatheringQueries.FindGatherings` | src/infrastructure/repositories/gathering/gatherings-prisma.repository.ts:252-284 | the dictionary loop gives the chosen gatherings back, in page order and with their own fields |
| `GatheringQueries.ReadGatherings` | src/infrastructure/repositories/gathering/gatherings-prisma.repository.ts:252-284 | one waiting or no-feed request returns the page of the paging theory with its cursor |
| `GatheringQueries.FoldEnded` | src/infrastructure/repositories/gathering/gatherings-prisma.repository.ts:185-201 | the loop yields one entry per gathering in order of first appearance, flagged if and only if one of its rows is |
| `GatheringQueries.EndedFoldKeepsOrder` | src/infrastructure/repositories/gathering/gatherings-prisma.repository.ts:166-183 | joined with feeds and folded, the ended page keeps its order and misses no gathering |
| `GatheringQueries.EndedFoldFlags` | src/infrastructure/repositories/gathering/gatherings-prisma.repository.ts:176-199 | `isFeedPosted` holds exactly when the user has an active feed about the gathering |
| `GatheringQueries.ReadEnded` | src/infrastructure/repositories/gathering/gatherings-prisma.repository.ts:124-202 | one ended-list request returns the page of the paging theory, every entry with that flag |
| `GatheringQueries.NoFeedWalk` | src/infrastructure/repositories/gathering/gatherings-prisma.repository.ts:204-250 | the no-feed walk is the sorted list of all matching gatherings after the cursor, boundary dates included |
| `GatheringQueries.NoFeedIsEndedUnposted` | src/infrastructure/repositories/gathering/gatherings-prisma.repository.ts:204-230 | over a range that covers all dates the no-feed list is the ended list without the flagged entries, in the same order |
| `GatheringQueries.FeedMovesGathering` | src/domain/services/feed/feeds.service.ts:40-65 | a successful feed takes exactly its gathering out of the writer's no-feed list and sets its flag; other users' lists and the ended lists stay |
| `UserQueries.FriendWalk` | src/infrastructure/repositories/friend/friends.prisma.repository.ts:41-95 | the friends walk is the name-sorted list of all active friends after the cursor |
| `UserQueries.TiedUserWalkIff` | src/infrastructure/repositories/friend/friends.prisma.repository.ts:83-85 | for friends or searched users whose names and account ids tie, the walk returns all after the cursor if and only if no page ends between two tied ones |
| `UserQueries.RequestWalk` | src/infrastructure/repositories/friend/friends.prisma.repository.ts:159-253 | a sent or received request walk from below all names returns every pending request with an active counterpart once, sorted |
| `UserQueries.CountSplits` | src/infrastructure/repositories/friend/friends.prisma.repository.ts:293-307 | sent plus received requests are `countRequest` plus the at most one request to oneself |
| `UserQueries.WalksMatchCount` | src/infrastructure/repositories/friend/friends.prisma.repository.ts:293-307 | conservation: the two complete walks together return as many items as `countRequest`, a request to oneself counting twice |
| `UserQueries.WalksMatchCountInRun` | src/infrastructure/repositories/friend/friends.prisma.repository.ts:293-307 | the same after every run of the services |
| `UserQueries.SearchIsLawful` | src/infrastructure/repositories/user/users-prisma.repository.ts:138-157 | one friend row per pair gives the left join one row per searched user |
| `UserQueries.SearchRowTag` | src/infrastructure/repositories/user/users-prisma.repository.ts:163-167 | the CASE expression tags a user by the pending request between the two |
| `UserQueries.SearchWalk` | src/infrastructure/repositories/user/users-prisma.repository.ts:128-220 | the search walk returns every active, other, unblocked, non-friend match after the cursor exactly once by name, tagged SENT, RECEIVED or NONE |
| `UserQueries.SearchWalkInRun` | src/infrastructure/repositories/user/users-prisma.repository.ts:128-220 | the same after every run of the services |
| `UserQueries.NotificationWalk` | src/infrastructure/repositories/notification/notifications-prisma.repository.ts:20-50 | the notification walk is the user's notifications after the cursor, newest first |
| `SocialSafety.RunIsSafe` | prisma/schema.prisma:300-314 | main theorem: after any sequence of service calls with any outcome, all the invariants below hold |
| `SocialSafety.StepIsSafe` | src/domain/services/friends/friends.service.ts:20-56 | every single call, successful or not, keeps all of them |
| `SocialSafety.RunKeepsOneRow` | src/domain/components/friend/friends-checker.ts:39-64 | in every run two users are joined by at most one friend row, in either direction |
| `SocialSafety.OnlyLink` | src/domain/components/friend/friends-checker.ts:66-77 | a row that links two users is the only one and its status is PENDING or ACCEPTED, REPORTED being unreachable |
| `SocialSafety.FriendStepKeepsRows` | src/domain/services/friends/friends.service.ts:20-56 | no friend call makes a second row for a pair or a REPORTED row |
| `SocialSafety.AcceptTurnsPending` | src/domain/services/friends/friends.service.ts:30-40 | a successful accept turns exactly one row, a PENDING one, into ACCEPTED and changes nothing else |
| `SocialSafety.RejectRemovesPending` | src/domain/services/friends/friends.service.ts:42-45 | a successful reject removes exactly one row, a PENDING one, and never a friendship |
| `SocialSafety.FriendshipSurvives` | src/domain/services/friends/friends.service.ts:20-56 | a friendship outlives every call other than a successful unfriend or report between the two |
| `SocialSafety.PartingEndsFriendship` | src/infrastructure/repositories/gathering/gathering-participations-prisma.repository.ts:301-324 | unfriending and reporting leave no row between the users and remove exactly the pending invitations between them, whoever hosts; every other participation stays |
| `SocialSafety.FriendStepKeepsInvited` | src/domain/services/friends/friends.service.ts:42-56 | friend calls keep every PENDING participation of a friends' gathering between a host and an ACCEPTED friend |
| `SocialSafety.GatheringStepKeepsInvited` | src/domain/services/gatherings/gatherings.service.ts:42-111 | so do gathering calls, creation above all |
| `SocialSafety.NewInvitationIsToFriend` | src/domain/services/gatherings/gatherings.service.ts:93-101 | a new PENDING participation of a friends' gathering goes to a friend of the host |
| `SocialSafety.GatheringStepKeepsParticipationsLive` | src/domain/services/gatherings/gatherings.service.ts:124-142 | participations belong to gatherings that exist and are not deleted |
| `SocialSafety.NewReportMatches` | src/domain/components/report/friend-reports-write.service.ts:39-49 | a new report keeps FRIEND reports and blocked users in one-to-one correspondence |
| `SocialSafety.AsManyReportsAsBlocks` | src/domain/components/report/friend-reports-write.service.ts:39-55 | hence there are as many FRIEND reports as blocked users |
| `SocialSafety.RepeatedReportChangesNothing` | src/domain/components/report/friend-reports-write.service.ts:25-49 | whatever happens after a friend report, also becoming friends again, the same report again changes no table |
| `SocialSafety.FeedStepKeepsFeedsFollowEndings` | src/domain/services/feed/feeds.service.ts:103-122 | a gathering with a feed is ended and not deleted, and the feed was written less than thirty days after the end |
| `SocialSafety.GatheringStepKeepsFeedsFollowEndings` | src/domain/services/gatherings/gatherings.service.ts:124-136 | deleting, updating or ending gatherings keeps that |
| `SocialSafety.DeletableHasNoFeed` | src/domain/services/gatherings/gatherings.service.ts:124-136 | no feed is about a gathering that can still be deleted |
| `SocialSafety.DeletedFeedFreesGathering` | src/domain/components/feed/feeds-writer.ts:27-30 | after deleting a feed its writer has none about the gathering, so may write again |
| `SocialSafety.NewFeedIsAsPosted` | src/domain/services/feed/feeds.service.ts:52-58 | a new feed counts for its writer and has the posted images and no others |
| `SocialSafety.FeedStepKeepsOneFeedPerWriter` | src/domain/services/feed/feeds.service.ts:135-148 | at most one active feed per gathering and writer |
| `SocialSafety.GroupStepKeepsOwners` | src/domain/services/groups/groups.service.ts:101-111 | every group keeps its owner's participation row |
| `SocialSafety.GroupStepKeepsGatherings` | prisma/schema.prisma:152-153 | deleting a group leaves the gatherings' invariants intact although they lose their reference |
| `SocialSafety.ReportedStaysReported` | src/domain/components/report/group-reports.write.service.ts:31-41 | a REPORTED member row never becomes ACCEPTED in place |
| `GroupSize.AddMembersLeavesTen` | src/domain/services/groups/groups.service.ts:60-82 | a successful addition grows its group, existing or not, by the given users to at most ten ACCEPTED members, and no other group |
| `GroupSize.AddingMembers` | src/infrastructure/repositories/group/group-participations-prisma.repository.ts:24-28 | a bulk insert grows its group by its length and no other group |
| `GroupSize.FoundingSize` | src/domain/services/groups/groups.service.ts:31-49 | a creation adds the owner and the given friends to what the identifier has, and nothing to other groups |
| `GroupSize.NewGroupHasTenIff` | src/domain/services/groups/groups.service.ts:31-49 | a group created under a fresh identifier has one member more than friends asked, hence at most ten if and only if at most nine are asked |
| `GroupSize.RunKeepsBound` | src/domain/services/groups/groups.service.ts:60-82 | from any state, a run that does not create the group anew keeps it within ten or the size it started with |
| `GroupSize.RunBoundsMembers` | src/domain/services/groups/groups.service.ts:31-82 | main theorem: over every run each group stays within ten or its own size at its creation, which under a fresh identifier is the number of friends asked plus one |
| `GroupSize.RunBoundsUnfounded` | src/domain/services/groups/groups.service.ts:60-82 | an identifier that never was a group's collects at most ten members |
| `GroupSize.FoundWith` | src/domain/services/groups/groups.service.ts:31-58 | for any number of active users there is a run that befriends them and founds a group of them and the owner, so the bound is reached |
| `GroupSize.GroupOfEleven` | src/presentation/dto/group/request/create-group.request.ts:24-25 | ten friends, which a request may name, make a group of eleven |
| `GroupSize.StepKeepsMembersHaveGroupsIff` | src/domain/services/groups/groups.service.ts:60-76 | a call keeps every member row in an existing group if and only if it is no successful addition of somebody to a missing group |
| `GroupSize.RunKeepsMembersHaveGroupsIff` | src/domain/services/groups/groups.service.ts:60-76 | along a run members always have groups if and only if no call of it is such an addition |
| `GroupSize.MemberOfNoGroup` | prisma/schema.prisma:16-20 | an input: a user adds a friend to a group nobody created, and nothing refuses it, relations being no database constraints |
| `GatheringEffects.WaitingHas` | src/infrastructure/repositories/gathering/gatherings-prisma.repository.ts:38-67 | the waiting list by columns: accepted by the user, not deleted, dated in the range, and without an end |
| `GatheringEffects.EndedHas` | src/infrastructure/repositories/gathering/gatherings-prisma.repository.ts:124-160 | the ended list by columns: the same with an end |
| `GatheringEffects.NoFeedHas` | src/infrastructure/repositories/gathering/gatherings-prisma.repository.ts:204-230 | the no-feed list by columns: ended, accepted, and every feed of the user about it deleted |
| `GatheringEffects.WaitingAndEnded` | src/infrastructure/repositories/gathering/gatherings-prisma.repository.ts:38-160 | the waiting and the ended list are disjoint and together are the "all" list of the range |
| `GatheringEffects.EndingMoves` | src/infrastructure/repositories/gathering/gatherings-prisma.repository.ts:67 | ending a gathering takes exactly it from the waiting list of everybody who accepted it, puts exactly it on their ended list, and moves no other entry of any list |
| `GatheringEffects.CreationIff` | src/domain/services/gatherings/gatherings.service.ts:143-172 | a gathering is created if and only if its kind comes with friends of the host or with an existing group, not with both, and its date is not past |
| `GatheringEffects.InsertedRows` | src/domain/services/gatherings/gatherings.service.ts:64-83 | a bulk insert gives the host an ACCEPTED row and every other invitee a PENDING one, and touches no other gathering |
| `GatheringEffects.CreationConvenes` | src/domain/services/gatherings/gatherings.service.ts:42-111 | after a creation the host takes part, each named friend (for a group each other member) has a PENDING participation, nobody else has any, and the gathering is as asked for |
| `GatheringEffects.HostTakesPartIff` | src/domain/services/gatherings/gatherings.service.ts:85-91 | nobody checks that the host belongs to the group: the host takes part if and only if it is a friends' gathering or the host is a member |
| `GatheringEffects.HostOutsideGroup` | src/domain/services/gatherings/gatherings.service.ts:85-91 | an input: a user outside a group makes a gathering of it and has no participation |
| `GatheringEffects.CreationLists` | src/domain/services/gatherings/gatherings.service.ts:71-73 | at once the new gathering is on its host's waiting list, if dated in the range, and on nobody else's; every other entry stays |
| `GatheringEffects.AcceptanceJoins` | src/domain/components/gathering/gathering-invitations-writer.ts:34-40 | accepting adds exactly that user to the participants of exactly that gathering |
| `GatheringEffects.AcceptanceLists` | src/domain/components/gathering/gathering-invitations-writer.ts:34-40 | it puts exactly that gathering on the user's waiting list, or on the ended one if it is over; no other entry of any list moves |
| `GatheringEffects.RejectionLists` | src/domain/components/gathering/gathering-invitations-writer.ts:49-52 | rejecting what was not accepted moves nobody's lists |
| `GatheringEffects.DeletionLists` | src/domain/services/gatherings/gatherings.service.ts:137-141 | a deleted gathering leaves every waiting list and was on no ended one |
| `GatheringEffects.CreateThenDelete` | src/domain/services/gatherings/gatherings.service.ts:102-142 | round trip: deleted right after its creation it leaves participations and all lists as they were |
| `GatheringEffects.UpdateLists` | src/domain/services/gatherings/gatherings.service.ts:113-122 | a new date decides anew which lists of its participants the gathering is on; other entries stay |
| `GatheringEffects.RunJoins` | src/domain/components/gathering/gathering-invitations-writer.ts:34-47 | in every run whoever takes part in a gathering has created it as host or accepted |
| `GatheringEffects.NotListedUntilJoined` | src/infrastructure/repositories/gathering/gatherings-prisma.repository.ts:42-51 | in every run it is on no list of a user who did neither |
| `FeedEffects.AllFeedsHas` | src/infrastructure/repositories/feed/feeds-prisma.repository.ts:237-280 | the "all" list by columns: a feed about a gathering for its writer, the host and everybody who accepted; one shared with friends for its writer and, while the writer is active, those it was shared with; never a blocked one |
| `FeedEffects.OwnAreRead` | src/infrastructure/repositories/feed/feeds-prisma.repository.ts:228-361 | own feeds are on the "all" list too, and no blocked feed is |
| `FeedEffects.FriendFeedIsPosted` | src/domain/services/feed/feeds.service.ts:93-101 | a post to friends writes the feed and its visibilities: exactly the named friends |
| `FeedEffects.FriendFeedLists` | src/domain/services/feed/feeds.service.ts:67-101 | the new feed comes onto the "all" list of its writer and, while the writer is active, of exactly the named friends, unless blocked, and onto the writer's own list; every other entry of every list stays |
| `FeedEffects.FriendFeedPresented` | src/domain/components/feed/feeds-reader.ts:65-105 | whoever reads it finds the text, the posted pictures and as members exactly the active named friends |
| `FeedEffects.RunKeepsReaders` | src/infrastructure/repositories/feed/friend-feed-visibilities-prisma.repository.ts:12-22 | with whom a feed is shared never changes afterwards, in any run |
| `FeedEffects.GatheringFeedLists` | src/domain/services/feed/feeds.service.ts:40-58 | a feed about a gathering comes onto the "all" list of exactly its writer, the host and everybody who accepted; every other entry stays |
| `FeedEffects.GatheringFeedPresented` | src/infrastructure/repositories/feed/feeds-prisma.repository.ts:175-225 | whoever reads it finds text, pictures, the gathering and as members exactly its other active, named participants, whatever their status |
| `FeedEffects.MayPostIff` | src/domain/services/feed/feeds.service.ts:103-148 | somebody who accepted may post about a gathering if and only if it is on their no-feed list and less than thirty days have passed since its end |
| `FeedEffects.PostErrors` | src/domain/services/feed/feeds.service.ts:103-148 | of the others, not completed iff without an end, period exceeded iff thirty days have passed, duplicate iff in time but no longer on the no-feed list |
| `FeedEffects.StrangerMayNotPost` | src/domain/services/feed/feeds.service.ts:124-133 | without a participation nobody may |
| `FeedEffects.MayDeleteIff` | src/domain/components/feed/feeds-writer.ts:38-46 | a feed may be deleted by exactly the user who has it on the own list, or wrote and blocked it |
| `FeedEffects.DeletedFeedLists` | src/infrastructure/repositories/feed/feeds-prisma.repository.ts:363-370 | a deleted feed leaves every list of everybody; the others stay |
| `FeedEffects.DeletedOnce` | src/domain/components/feed/feeds-writer.ts:27-46 | and cannot be deleted again, by anybody |
| `FeedEffects.ReportedFeedLists` | src/domain/components/report/feed-reports-write.service.ts:17-32 | a reported feed goes from the reporter's lists to the reporter's blocked ones; nobody else's lists move |
| `FeedEffects.ReportedFeedStaysAway` | src/infrastructure/repositories/feed/feeds-prisma.repository.ts:241-246 | no further run brings it back onto the reporter's lists |
| `FriendEffects.RequestIff` | src/domain/services/friends/friends.service.ts:20-28 | a request goes through if and only if no row joins the two in either direction and the receiver is active |
| `FriendEffects.RequestErrors` | src/domain/components/friend/friends-checker.ts:39-64 | already friends iff they are, already asked iff a request waits in either direction, user not found iff neither and the receiver inactive; the refusal of reported users is never given |
| `FriendEffects.AnswerIff` | src/domain/components/friend/friends-checker.ts:66-77 | accepting and rejecting go through, for either of the two, exactly while a request waits between them |
| `FriendEffects.PartIff` | src/domain/components/friend/friends-checker.ts:79-86 | unfriending goes through exactly for friends, reporting exactly for friends the reporter has not blocked yet |
| `FriendEffects.RequestThenReject` | src/domain/services/friends/friends.service.ts:20-45 | round trip: rejecting a request, from either side, restores all tables |
| `FriendEffects.RequestThenAccept` | src/domain/services/friends/friends.service.ts:20-40 | a request and its acceptance leave exactly one new ACCEPTED row and make the two friends |
| `FriendEffects.TogetherThenApart` | src/domain/services/friends/friends.service.ts:20-56 | round trip: parting by unfriending or by a report restores the friend table |
| `FriendEffects.PartedMayAskAgain` | src/domain/components/friend/friends-checker.ts:39-64 | after that either may ask the other again at once, the reported one included: a report is no lasting refusal |
| `FriendEffects.RequestLists` | src/infrastructure/repositories/friend/friends.prisma.repository.ts:159-253 | a request comes onto the sender's sent and the receiver's received list and onto no other |
| `FriendEffects.AcceptLists` | src/infrastructure/repositories/friend/friends.prisma.repository.ts:41-81 | accepting takes it off both and puts each of the two on the other's friends; all other lists stay |
| `FriendEffects.RejectLists` | src/infrastructure/repositories/friend/friends.prisma.repository.ts:343-359 | rejecting takes it off both lists and moves nobody's friends |
| `FriendEffects.PartingLists` | src/domain/services/friends/friends.service.ts:47-56 | parting takes exactly the two off each other's friends and moves no list of requests |
| `FriendEffects.PartingInvitations` | src/infrastructure/repositories/gathering/gathering-participations-prisma.repository.ts:301-324 | it takes back exactly the PENDING participations of one of the two in a gathering the other hosts |
| `FriendEffects.PartingKeepsGatherings` | src/infrastructure/repositories/gathering/gathering-participations-prisma.repository.ts:301-324 | so all waiting and ended lists stay: nobody leaves a gathering they accepted |
| `FriendEffects.RequestShowsInSearch` | src/infrastructure/repositories/user/users-prisma.repository.ts:163-174 | while a request waits its sender finds the receiver tagged SENT and is found tagged RECEIVED, unless blocked |
| `GroupEffects.CreateGroupIff` | src/domain/services/groups/groups.service.ts:31-48 | a group is created if and only if all named users are friends of the owner, each named once and not the owner, and the keys are new |
| `GroupEffects.CreatedGroupHas` | src/domain/services/groups/groups.service.ts:50-57 | owner and friends become its ACCEPTED members, nobody else does, and no other membership changes |
| `GroupEffects.AddMembersIff` | src/domain/services/groups/groups.service.ts:60-99 | an addition goes through if and only if all are friends of the inviter, named once, without any row in the group, and at most ten ACCEPTED members result |
| `GroupEffects.AddMembersErrors` | src/domain/services/groups/groups.service.ts:77-99 | among friends: reported iff one of them has a REPORTED row, limit exceeded iff none has a row and more than ten would result |
| `GroupEffects.AddedGroupHas` | src/domain/services/groups/groups.service.ts:60-75 | exactly the given users join, as ACCEPTED members; every other membership stays |
| `GroupEffects.AddThenLeave` | src/domain/services/groups/groups.service.ts:60-111 | round trip: whoever was added and leaves leaves the tables as they were |
| `GroupEffects.RunKeepsGroups` | prisma/schema.prisma:152-153 | in every run the group a gathering refers to exists |
| `GroupEffects.CreateThenDelete` | src/domain/services/groups/groups.service.ts:31-137 | round trip: deleting a group just created restores all tables |
| `GroupEffects.ReportedGroupHas` | src/domain/components/report/group-reports.write.service.ts:18-41 | it takes exactly the reporter from the ACCEPTED members and keeps the row as REPORTED |
| `GroupEffects.RunKeepsReported` | src/domain/components/report/group-reports.write.service.ts:31-41 | the row stays REPORTED in any run without a leave of that user or a deletion of that group |
| `GroupEffects.ReporterIsNotReadded` | src/domain/services/groups/groups.service.ts:84-99 | main theorem: in such a run nobody can add the reporter to the group again, alone or among others |
| `UserQueries.FriendWalkHas` | src/infrastructure/repositories/friend/friends.prisma.repository.ts:41-95 | whom the complete friends walk returns, by columns: active, another user, after the cursor, joined by an ACCEPTED row in either direction |
| `UserQueries.RequestWalkHas` | src/infrastructure/repositories/friend/friends.prisma.repository.ts:159-253 | which rows the complete sent or received walk returns, by columns: PENDING, sent or received by the user, the other one active |
| `UserQueries.SearchWalkHas` | src/infrastructure/repositories/user/users-prisma.repository.ts:128-211 | whom the complete search walk returns, by columns: active, not the searcher, a match, after the cursor, no blocked row of the searcher and no ACCEPTED row in either direction |
| `UserQueries.SearchWalkTags` | src/infrastructure/repositories/user/users-prisma.repository.ts:163-167 | SENT exactly for somebody the searcher has asked, RECEIVED exactly for somebody who has asked the searcher |
| `UserQueries.ReportedIsNotFound` | src/infrastructure/repositories/user/users-prisma.repository.ts:169-174 | across services: after a friend report and any further run no search walk of the reporter returns the reported user |
| `UserQueries.NotificationWalkHas` | src/infrastructure/repositories/notification/notifications-prisma.repository.ts:20-50 | which notifications the walk returns, by columns |
| `AccountEffects.SignedInIsStored` | src/domain/services/auth/auth.service.ts:65-140 | whoever is signed in, by login, registration or refresh, receives the newly issued token, which replaces the one of the pair and no other |
| `AccountEffects.HandedOutIsCurrent` | src/domain/services/auth/auth.service.ts:221-233 | main theorem: over every run the token a call hands out is accepted in the next refresh of that user and device, and no other one is |
| `AccountEffects.ChainOfRefreshes` | src/domain/services/auth/auth.service.ts:200-234 | rotation as long as one likes: every refresh with the token of the one before goes through, and only that pair's token moves |
| `AccountEffects.LogoutIffCurrent` | src/domain/services/auth/auth.service.ts:307-316 | main theorem: over every run a logout goes through if and only if some token is current for the user and device in the history |
| `AccountEffects.LogoutTakesOneToken` | src/infrastructure/repositories/token/refresh-token-prisma.repository.ts:50-59 | it takes away exactly that pair's token and the user's notification token |
| `AccountEffects.LoggedOutIsRefused` | src/domain/services/auth/auth.service.ts:307-316 | after a logout no refresh of the pair goes through in any run until a token is issued for it again |
| `AccountEffects.SignInThenLogout` | src/domain/services/auth/auth.service.ts:102-114 | signing in and logging out on a device leaves the tokens of all other pairs as they were |
| `AccountEffects.WithdrawalSignsOut` | src/infrastructure/repositories/token/refresh-token-prisma.repository.ts:61-67 | it ends the user's tokens on every device and nobody else's anywhere |
| `AccountEffects.WithdrawnIsRefused` | src/domain/services/user/users.service.ts:94-98 | until the user signs in again no refresh on any device goes through |
| `AccountEffects.WithdrawThenLogin` | src/domain/services/auth/auth.service.ts:270-305 | after a withdrawal of the last account of an email a login with it signs in to the same account if and only if under thirty days have passed and the provider is the same; it gives back the row apart from the notification token |
| `AccountEffects.WithdrawThenRegister` | src/domain/services/auth/auth.service.ts:142-158 | after the withdrawal of the only withdrawn row of an email it counts as a duplicate for those thirty days and no longer |
| `AccountEffects.DuplicateEmailMayShowIff` | src/domain/services/auth/auth.service.ts:142-158 | a registration can be refused for its email if and only if some row of it was withdrawn less than thirty days ago |
| `AccountEffects.FreshRegisters` | src/domain/services/auth/auth.service.ts:116-140 | with an email and an account id that no row has a registration goes through |
| `AccountEffects.RegisterThenLogin` | src/domain/services/auth/auth.service.ts:65-140 | whoever registered an email that no active row had signs in with it on any device, with the same provider only, and the row is as registered |
| `AccountEffects.FreeIdChangeIff` | src/domain/services/user/users.service.ts:26-47 | to an id that no row has an active user may change if and only if it is the first change or thirty days have passed |
| `AccountEffects.CooldownIsLeastWait` | src/domain/services/user/users.service.ts:37-42 | the number of days a refused change names is the fewest whole days after which the cooldown is over |
| `AccountEffects.NotificationTokenStays` | src/domain/components/user/users-writer.ts:16-46 | a notification token stays in every run until the user logs out, withdraws or sends another |
| `SocialStore.Store.constructor` | prisma/schema.prisma:300-347 | an empty store is valid |
| `SocialStore.Store.FindFriendRow` | src/infrastructure/repositories/friend/friends.prisma.repository.ts:255-277 | the symmetric lookup finds some linking row if and only if there is one |
| `SocialStore.FoundRowDecides` | src/domain/components/friend/friends-checker.ts:66-77 | in safe tables whichever linking row is found decides what accepting and rejecting answer and do |
| `SocialStore.Store.CheckIsFriend` | src/domain/components/friend/friends-checker.ts:17-29 | succeeds exactly for friends, although it looks at one row only |
| `SocialStore.Store.CheckIsFriendAll` | src/domain/components/friend/friends-checker.ts:31-37 | succeeds exactly when all are friends |
| `SocialStore.Store.Request` | src/domain/services/friends/friends.service.ts:20-28 | error by the existing row, missing receiver or key, else one PENDING row; tables stay valid |
| `SocialStore.Store.Accept` | src/domain/services/friends/friends.service.ts:30-40 | refines the transition that makes the pair friends |
| `SocialStore.Store.Reject` | src/domain/services/friends/friends.service.ts:42-45 | refines the transition that deletes the pair's row |
| `SocialStore.Store.Unfriend` | src/domain/services/friends/friends.service.ts:47-56 | refines the transition that also deletes pending invitations |
| `SocialStore.Store.ReportTransaction` | src/domain/components/report/friend-reports-write.service.ts:39-49 | all four writes happen, or, when a key is taken, none does |
| `SocialStore.Store.ReportFriend` | src/domain/components/report/friend-reports-write.service.ts:25-36 | checks friendship first, then all or nothing |
| `SocialStore.Store.CreateGathering` | src/domain/services/gatherings/gatherings.service.ts:42-111 | every validation error in order, else the gathering as asked for; the host takes part and finds it on the waiting list at once, each named friend (for a group each other member) has a PENDING participation, nobody else has any, and no other entry of a waiting list moves; for a group the host part assumes that the host is a member |
| `SocialStore.Store.UpdateGathering` | src/domain/services/gatherings/gatherings.service.ts:113-122 | succeeds iff the gathering is active, the caller hosts it and the new date is not past; then name and date are new, host and end the old ones, and other gatherings untouched |
| `SocialStore.Store.DeleteGathering` | src/domain/services/gatherings/gatherings.service.ts:124-142 | an unended gathering of the host is gone with all its participations and without leaving a feed behind; all other rows stay |
| `SocialStore.Store.AcceptInvitation` | src/domain/components/gathering/gathering-invitations-writer.ts:34-47 | the caller now takes part in a gathering that is active; all other participations stay |
| `SocialStore.Store.RejectInvitation` | src/domain/components/gathering/gathering-invitations-writer.ts:49-52 | succeeds iff exactly that participation is gone; all others stay |
| `SocialStore.Store.CheckCreateGatheringFeedConstraints` | src/domain/services/feed/feeds.service.ts:103-148 | end, participation, period and duplicate decide the answer in that order |
| `SocialStore.Store.CreateGatheringFeed` | src/domain/services/feed/feeds.service.ts:40-65 | the writer, who had no feed about the gathering, has one, with exactly the posted images; exactly the writer, the host and everybody who accepted find it on their "all" list, unless blocked; other feeds stay |
| `SocialStore.Store.FriendFeedTransaction` | src/domain/services/feed/feeds.service.ts:93-101 | feed, images and visibilities together, one visibility per named friend and no other, or, on a taken key, nothing |
| `SocialStore.Store.CreateFriendFeed` | src/domain/services/feed/feeds.service.ts:67-91 | friendship with all of them first, then all or nothing: exactly the named friends get a visibility, and exactly the writer and, while the writer is active, those friends find the feed on their "all" list, unless blocked |
| `SocialStore.Store.DeleteFeed` | src/domain/components/feed/feeds-writer.ts:27-30 | an active feed of its writer is gone from everybody's list and with it the only one about its gathering; other feeds stay |
| `SocialStore.Store.ReportFeed` | src/domain/components/report/feed-reports-write.service.ts:17-22 | succeeds iff neither key is taken, without looking the feed up; report and block are written together or not at all, and exactly the reporter loses exactly that feed |
| `SocialStore.Store.GroupTransaction` | src/domain/services/groups/groups.service.ts:50-58 | group and members together or, on a taken key, neither |
| `SocialStore.Store.CreateGroup` | src/domain/services/groups/groups.service.ts:31-49 | friendship with all of them first, then all or nothing |
| `SocialStore.Store.AddMembers` | src/domain/services/groups/groups.service.ts:60-99 | refusals in order, else the given members are added |
| `SocialStore.Store.LeaveGroup` | src/domain/services/groups/groups.service.ts:101-111 | succeeds iff exactly the caller's row is gone; owners always keep theirs |
| `SocialStore.Store.DeleteGroup` | src/domain/services/groups/groups.service.ts:128-136 | an owner's group is gone with all its member rows, no gathering refers to it, and no gathering or other member is lost |
| `SocialStore.Store.ReportGroup` | src/domain/components/report/group-reports.write.service.ts:18-41 | report and REPORTED status together or neither |
| `RequestRace.RunKeepsDirections` | prisma/schema.prisma:311 | with check and insert interleaved in any way, each ordered pair has at most one row |
| `RequestRace.AtMostTwoRows` | prisma/schema.prisma:311 | hence two users are joined by at most two rows, and two rows point in opposite directions |
| `RequestRace.DeleteLeavesNone` | src/infrastructure/repositories/friend/friends.prisma.repository.ts:343-359 | deleting by user ids leaves none of them, and keeps all other rows |
| `RequestRace.InsertKeepsPairIff` | src/domain/services/friends/friends.service.ts:20-28 | an insert keeps one row per pair if and only if its check would still pass or the key stops it |
| `RequestRace.NextKeepsPairIff` | src/domain/services/friends/friends.service.ts:20-56 | any transition keeps one row per pair if and only if it is no stale insert that no key stops |
| `RequestRace.RunKeepsPairIff` | src/domain/services/friends/friends.service.ts:20-56 | along an interleaved run every pair has one row in every state if and only if no insert of it is of that kind |
| `RequestRace.CrossedRequests` | src/domain/services/friends/friends.service.ts:20-28 | two users asking each other at the same time end up with two rows |
| `RequestRace.RejectMayEndFriendship` | src/domain/services/friends/friends.service.ts:42-45 | with two rows a reject deletes an ACCEPTED row exactly when there is one beside the PENDING row it found |
| `RequestRace.RejectEndsFriendship` | src/domain/components/friend/friends-checker.ts:66-77 | an interleaving that gets there: two crossed requests, one accept, and a reject that finds the other row deletes the friendship |
| `RequestRace.RejectKeepsInvitedIff` | src/domain/services/friends/friends.service.ts:42-45 | a reject keeps invited users and hosts friends if and only if no invitation to a friends' gathering waits between the two |
| `RequestRace.RejectLeavesInvitation` | src/domain/services/friends/friends.service.ts:42-45 | after a gathering is created in that run, the reject leaves its guest invited by a user who is no friend any more |
| `AccountSafety.LoginFollowsAnswer` | src/domain/services/auth/auth.service.ts:270-305 | a login answers for the active account of the email, else for the last withdrawn one if under thirty full days: not registered iff there is none, other platform only on a provider mismatch, else signed in and restored |
| `AccountSafety.PickAnswers` | src/infrastructure/repositories/user/users-prisma.repository.ts:36-53 | the first row by descending `deletedAt`, where no date comes first, is that account |
| `AccountSafety.AnswerIsUnique` | src/infrastructure/repositories/user/users-prisma.repository.ts:36-53 | with one active account per email the answer does not depend on row order |
| `AccountSafety.RegisterKeepsEmailIff` | src/domain/services/auth/auth.service.ts:142-158 | a registration that goes through keeps one active account per email if and only if no active row has the email |
| `AccountSafety.StepKeepsEmailsIff` | src/domain/services/auth/auth.service.ts:65-140 | any call, a restoring login included, keeps it if and only if it is no registration of an active email |
| `AccountSafety.RunKeepsEmailsIff` | src/domain/services/auth/auth.service.ts:65-140 | along a run emails always have one active account if and only if no registration of it is of that kind |
| `AccountSafety.RegisterTwice` | src/domain/services/auth/auth.service.ts:142-158 | the duplicate check ignores active rows: a run of two registrations with one email |
| `AccountSafety.AdvisedIsNew` | src/domain/services/auth/auth.service.ts:65-94 | after a "not registered" answer in the same state no active row has the email |
| `AccountSafety.RunKeepsOneLive` | src/domain/services/auth/auth.service.ts:65-140 | main theorem: in every run whose registrations follow such an answer each email has at most one active account |
| `AccountIds.StepKeepsAccountIdsIff` | src/domain/services/auth/auth.service.ts:65-140 | any call keeps active account ids different if and only if no other active user has the id that it makes active by registering, changing or restoring |
| `AccountIds.RunKeepsAccountIdsIff` | src/domain/services/auth/auth.service.ts:96-140 | along a run active account ids always differ if and only if no call of it makes a held one active |
| `AccountIds.CheckMayPassIff` | src/domain/services/auth/auth.service.ts:160-178 | for an id that some row has, the row the check happens to look at can let it pass if and only if one of its rows was withdrawn at least thirty full days ago |
| `AccountIds.RegistrationMayShareIff` | src/domain/services/auth/auth.service.ts:116-178 | a registration whose other checks pass can give out an id twice if and only if an active row and such an expired row both have it |
| `AccountIds.ChangeMayShareIff` | src/domain/services/user/users.service.ts:26-67 | likewise a change by an active user who is not cooling down |
| `AccountIds.RestoredRowShares` | src/domain/services/auth/auth.service.ts:96-100 | a run without any such registration in which a restoring login leaves two active users with one id |
| `AccountIds.ExpiredRowHidesActive` | src/infrastructure/repositories/user/users-prisma.repository.ts:55-67 | the unordered lookup can return an expired row instead of an active one: a run that gives two active users one account id |
| `AccountSafety.RunKeepsAccountsSafe` | prisma/schema.prisma:103-104 | in every run withdrawn rows respect the unique keys and only active users hold refresh tokens |
| `AccountSafety.StoredIsCurrent` | src/infrastructure/repositories/token/refresh-token-prisma.repository.ts:11-67 | the token table is the history of issues and revocations, read backwards to the last event of each user and device |
| `AccountSafety.RefreshIffCurrent` | src/domain/services/auth/auth.service.ts:200-245 | main theorem: a refresh goes through if and only if the presented token is the latest event of its user and device; its user is then active |
| `AccountSafety.SupersededIsRefused` | src/domain/services/auth/auth.service.ts:200-245 | if no token is issued twice, one that was rotated, logged out or withdrawn is refused ever after, on any device and also after a restore |
| `AccountSafety.StepKeepsDates` | src/domain/components/user/users-writer.ts:16-46 | only a successful account-id change moves `updatedAt`; nothing moves `createdAt` |
| `AccountSafety.ChangesAreMonthsApart` | src/domain/services/user/users.service.ts:26-47 | main theorem: after a change made later than the creation of the account any further change of that user comes at least 30 times 86 400 000 ms later, whatever happens between |
| `AccountSafety.NextChangeCoolsDownIff` | src/domain/services/user/users.service.ts:33-47 | the next change is held back if and only if it comes earlier than that and the change before did not fall on the creation instant |
| `AccountSafety.TwoChangesAtOnce` | src/domain/services/user/users.service.ts:33-47 | an input: a run in which a new user changes the account id twice within a millisecond |
| `AccountStore.Store.FindOneByEmail` | src/infrastructure/repositories/user/users-prisma.repository.ts:36-53 | returns a first row by descending `deletedAt` or says that none has the email |
| `AccountStore.Store.FindDeletedByEmail` | src/infrastructure/repositories/user/users-prisma.repository.ts:352-368 | returns some withdrawn row of the email or says that there is none |
| `AccountStore.Store.FindOneByAccountId` | src/infrastructure/repositories/user/users-prisma.repository.ts:55-67 | returns some row with the account id or says that there is none |
| `AccountStore.Store.CheckDuplicateAccountId` | src/domain/services/auth/auth.service.ts:160-178 | taken exactly when the row found is active or withdrawn for less than thirty full days |
| `AccountStore.Store.Login` | src/domain/services/auth/auth.service.ts:65-114 | refines the login transition: restore and token upsert, or an error and nothing; the answer carries the new token, which is stored for the device |
| `AccountStore.Store.Register` | src/domain/services/auth/auth.service.ts:116-140 | refines the registration transition; the new active user has the given email and account id and the new token; the token insert cannot fail after the user insert |
| `AccountStore.Store.RefreshAccessToken` | src/domain/services/auth/auth.service.ts:200-234 | goes through iff the device's stored token is the presented one; then hands out the new token and stores it in its place, and nothing else changes |
| `AccountStore.Store.Logout` | src/domain/services/auth/auth.service.ts:307-316 | goes through iff the device has a stored token; then exactly that token and the notification token are gone; the second write cannot fail after the first |
| `AccountStore.Store.Withdraw` | src/domain/services/user/users.service.ts:94-98 | dates the row and deletes all tokens of the user and no other, or, on a taken key, changes nothing |
| `AccountStore.Store.ChangeAccountId` | src/domain/services/user/users.service.ts:26-67 | cooldown with the days left, then the duplicate check, then the new id and date |
| `AccountStore.Store.ChangeProfileImage` | src/domain/services/user/users.service.ts:22-24 | changes exactly the image of one row, and fails iff there is none |

## Left out

- SocialStore.Store.AddMembers: with REPORTED and ACCEPTED members among the new ones either refusal may be given, because the database returns the rows in no order.
- SocialSafety.RunIsSafe: covers the calls of `Social`; editing a feed's text, unblocking a feed, editing a group, comments and notifications touch none of the columns the invariants speak of.
- UserQueries.SearchWalk: different names or account ids of the searched users are a hypothesis, as the code does not keep account ids different.
- UserQueries.TiedUserWalkIff: the database is taken to put tied rows in the same order at every request.
- AccountSafety.SupersededIsRefused: freshness of issued tokens is a hypothesis; two tokens signed for one user and device in the same second are equal.
- AccountSafety.RunKeepsOneLive: the login and the registration it advises read the same state; two interleaved registrations are not covered.
- GatheringEffects.CreationConvenes: for a group the host is taken to be a member, which the code does not check; `GatheringEffects.HostTakesPartIff` covers the other hosts.
- GatheringEffects.EndingMoves: nothing in the services sets the end of a gathering; it is a step from outside that sets it once.
- RequestRace.RunKeepsDirections: only friend requests are split into check and insert; all other calls are atomic.
- AccountStore.Store.Login: user and token tables are written one after the other as in the code, whose token writes stay outside the transaction; a crash between them is not modelled.
- Controllers, request validation, converters, guards, logging, object storage, OAuth, push messages and the event emitter: input, output and wiring.
- SQL text and query plans: tables are maps and sets, UUIDs are natural numbers compared as the database compares them, collations are abstract strict orders `less` and `nameLe`, the LIKE pattern is a predicate on account ids, dates are milliseconds and the cursor dates canonical.
- Rows of a bulk insert (participations of a gathering, images of a feed) are keyed by their owner and position instead of by identifiers of their own.
- Columns no property reads: descriptions, addresses, comment counts, image urls of users in lists, read dates, and update dates of tables other than the user table.
- Callers: whoever makes a call is taken to be who the access token says.
- Each call reads the clock once, where the code sometimes reads it again a moment later.
- Token signing and verification: a presented token arrives with the user the verifier found in it, or none; Apple's token revocation on withdrawal is not part of this model.
- Received-invitation paging: the cursor carries a participation id but is compared with the gathering id (`src/infrastructure/repositories/gathering/gathering-participations-prisma.repository.ts:96`, `src/domain/helpers/get-cursor.ts:56`), so the walk is not exact.
- Sent-invitation paging (no id tie-break in its outer query) and group-list paging (a cursor of another column than the order): exact only without ties.
- The friends search by name, which the code marks as unused, and the detail views other than their image list.
- Walks of the ascending list from a cursor outside its range; `GatheringQueries.AllIsInRangeIff` says what its requests then answer.
- SocialStore.Store.DeleteByUserIds: has no row of its own; what the deletion means is stated by `RequestRace.DeleteLeavesNone` and `SocialSafety.PartingEndsFriendship`.
- SocialStore.Store.DeleteAllPendingInvitation: likewise, by `SocialSafety.PartingEndsFriendship`.
