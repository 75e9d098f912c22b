/**
 The rows the outer query of a feed list returns, and the proof that folding them gives back what was
 joined: the shown feeds of the page in page order, each with its images and its participants.
 */
module FeedJoin {
  import opened Prelude
  import opened Tables
  import opened Paging
  import opened FeedQueries
  import opened FeedFold

  function UserOf(db: Db, u: Uuid): User
    requires u in db.users
  {
    User(u, db.users[u].accountId, db.users[u].name)
  }

  // ---- The join ----

  /** The gathering of the feed, as the left join with the active gatherings finds it. */
  predicate JoinsGathering(db: Db, f: Uuid)
    requires f in db.feeds
  {
    db.feeds[f].gatheringId.Some? && ActiveGathering(db, db.feeds[f].gatheringId.value)
  }

  predicate GatheringColumn(db: Db, f: Uuid, column: Option<GatheringInfo>)
    requires f in db.feeds
  {
    if JoinsGathering(db, f) then
      var g := db.feeds[f].gatheringId.value;
      column == Some(GatheringInfo(g, db.gatherings[g].name, db.gatherings[g].gatheringDate))
    else column.None?
  }

  /** Each image of the feed, or nothing when there is none. */
  predicate ImageColumn(db: Db, f: Uuid, column: Option<ImageRef>) {
    match column
    case Some(image) => (f, image.index) in db.images && db.images[(f, image.index)] == image.url
    case None => forall k | k in db.images :: k.0 != f
  }

  predicate Participates(db: Db, g: Uuid, u: Uuid) {
    exists k | k in db.participations :: k.0 == g && db.participations[k].participantId == u
  }

  /** Each participant of the gathering, whatever the status; nothing for one who has withdrawn. */
  predicate MemberColumn(db: Db, f: Uuid, column: Option<User>)
    requires f in db.feeds
  {
    match column
    case Some(user) =>
      && JoinsGathering(db, f) && Participates(db, db.feeds[f].gatheringId.value, user.id)
      && ActiveUser(db.users, user.id) && user == UserOf(db, user.id)
    case None =>
      || !JoinsGathering(db, f)
      || (exists k | k in db.participations ::
            k.0 == db.feeds[f].gatheringId.value && !ActiveUser(db.users, db.participations[k].participantId))
      || (forall k | k in db.participations :: k.0 != db.feeds[f].gatheringId.value)
  }

  /** The row belongs to the join over the chosen feeds. */
  predicate IsJoinRow(db: Db, chosen: seq<Uuid>, row: JoinRow) {
    && row.id in chosen && ActiveFeed(db, row.id) && ActiveUser(db.users, db.feeds[row.id].writerId)
    && row.content == db.feeds[row.id].content && row.createdAt == db.feeds[row.id].createdAt
    && row.writer == UserOf(db, db.feeds[row.id].writerId)
    && GatheringColumn(db, row.id, row.gathering)
    && ImageColumn(db, row.id, row.image)
    && MemberColumn(db, row.id, row.member)
  }

  /** ORDER BY gm.name, with NULL last. */
  predicate MemberLe(nameLe: (string, string) -> bool, a: Option<User>, b: Option<User>) {
    b.None? || (a.Some? && nameLe(a.value.name, b.value.name))
  }

  function Index(image: Option<ImageRef>): int {
    if image.Some? then image.value.index else -1
  }

  /** Within one feed: ORDER BY index, member name. */
  predicate OwnLe(nameLe: (string, string) -> bool, a: JoinRow, b: JoinRow) {
    || Index(a.image) < Index(b.image)
    || (Index(a.image) == Index(b.image) && MemberLe(nameLe, a.member, b.member))
  }

  /** ORDER BY created_at, id, index, member name. */
  predicate RowLe(direction: Direction, nameLe: (string, string) -> bool, a: JoinRow, b: JoinRow) {
    || Compare(direction)(DateId(a.createdAt, a.id), DateId(b.createdAt, b.id))
    || (a.createdAt == b.createdAt && a.id == b.id && OwnLe(nameLe, a, b))
  }

  /** What the database may return: the join, each row at least once, sorted. */
  ghost predicate IsJoin(
    db: Db, chosen: seq<Uuid>, direction: Direction, nameLe: (string, string) -> bool, rows: seq<JoinRow>)
  {
    && (forall row :: row in rows <==> IsJoinRow(db, chosen, row))
    && (forall i, j | 0 <= i < j < |rows| :: RowLe(direction, nameLe, rows[i], rows[j]))
  }

  // ---- The page order ----

  /** A shown feed has at least one row in the join. */
  lemma SomeRow(db: Db, chosen: seq<Uuid>, f: Uuid) returns (row: JoinRow)
    requires f in chosen && ActiveFeed(db, f) && ActiveUser(db.users, db.feeds[f].writerId)
    ensures IsJoinRow(db, chosen, row) && row.id == f
  {
    var image: Option<ImageRef>;
    if k :| k in db.images && k.0 == f {
      image := Some(ImageRef(k.1, db.images[k]));
    } else {
      image := None;
    }
    var member: Option<User> := None;
    if JoinsGathering(db, f) {
      if k :| k in db.participations && k.0 == db.feeds[f].gatheringId.value {
        var u := db.participations[k].participantId;
        if ActiveUser(db.users, u) {
          member := Some(UserOf(db, u));
        }
      }
    }
    var g := db.feeds[f].gatheringId;
    var gathering := if JoinsGathering(db, f)
      then Some(GatheringInfo(g.value, db.gatherings[g.value].name, db.gatherings[g.value].gatheringDate))
      else None;
    row := JoinRow(f, db.feeds[f].content, db.feeds[f].createdAt, UserOf(db, db.feeds[f].writerId),
                   gathering, image, member);
  }

  /** The entries of the fold are the shown feeds of the page, in page order. */
  lemma FoldKeepsPageOrder(
    db: Db, chosen: seq<Uuid>, direction: Direction, nameLe: (string, string) -> bool, rows: seq<JoinRow>)
    requires IsJoin(db, chosen, direction, nameLe, rows)
    requires Sorted(FeedOrder(db, direction), chosen) && forall f <- chosen :: ActiveFeed(db, f)
    ensures Distinct(Ids(rows)) == Keep(chosen, Shown(db))
  {
    var o := FeedOrder(db, direction);
    var ids := Ids(rows);
    var same := (a: Uuid, b: Uuid) => a == b || o.Precedes(a, b);
    forall j | 0 <= j < |ids| ensures ids[j] in ids[..j] || forall i | 0 <= i < j :: same(ids[i], ids[j]) {
      forall i | 0 <= i < j ensures same(ids[i], ids[j]) {
        assert RowLe(direction, nameLe, rows[i], rows[j]);
        assert rows[i] in rows && rows[j] in rows;
      }
    }
    DistinctSorted(ids, same);
    DistinctElements(ids);
    KeepSorted(o, chosen, Shown(db));
    forall f ensures f in Distinct(ids) <==> f in Keep(chosen, Shown(db)) {
      KeepHas(chosen, Shown(db), f);
      if f in ids {
        var i :| 0 <= i < |ids| && ids[i] == f;
        assert rows[i] in rows;
      }
      if f in chosen && f in Shown(db) {
        var row := SomeRow(db, chosen, f);
        assert row in rows;
        var i :| 0 <= i < |rows| && rows[i] == row;
        assert ids[i] == f;
      }
    }
    FeedOrderIsLawful(db, direction, {});
    SortedUnique(o, Distinct(ids), Keep(chosen, Shown(db)));
  }

  // ---- Images ----

  function ByIndex(): Order<ImageRef, int> {
    Order((image: ImageRef) => image.index as int, (a: int, b: int) => a < b)
  }

  /** The image rows of a feed. */
  function ImageSet(db: Db, f: Uuid): set<ImageRef> {
    set k | k in db.images && k.0 == f :: ImageRef(k.1, db.images[k])
  }

  /** Those a list shows. */
  function ShownImages(db: Db, f: Uuid): set<ImageRef> {
    set image | image in ImageSet(db, f) && image.url != ""
  }

  lemma ByIndexIsLawful(db: Db, f: Uuid)
    ensures Lawful(ByIndex(), ImageSet(db, f)) && Lawful(ByIndex(), ShownImages(db, f))
  {
  }

  /** The urls of a feed in index order, as its detail view lists them. */
  ghost function DetailUrls(db: Db, f: Uuid): seq<string> {
    ByIndexIsLawful(db, f);
    MapSeq(Url, Listing(ByIndex(), ImageSet(db, f)))
  }

  function NonEmpty(urls: seq<string>): seq<string> {
    if urls == [] then []
    else if urls[0] != "" then [urls[0]] + NonEmpty(urls[1..])
    else NonEmpty(urls[1..])
  }

  lemma {:induction false} KeepNonEmpty(refs: seq<ImageRef>, shown: set<ImageRef>)
    requires forall image <- refs :: image in shown <==> image.url != ""
    ensures MapSeq(Url, Keep(refs, shown)) == NonEmpty(MapSeq(Url, refs))
  {
    if refs != [] {
      var rest := refs[1..];
      assert refs == [refs[0]] + rest;
      KeepNonEmpty(rest, shown);
      assert MapSeq(Url, refs)[1..] == MapSeq(Url, rest);
    }
  }

  /** The shown images, sorted, are the detail view without its empty urls. */
  lemma ShownUrls(db: Db, f: Uuid)
    ensures Lawful(ByIndex(), ShownImages(db, f))
    ensures MapSeq(Url, Listing(ByIndex(), ShownImages(db, f))) == NonEmpty(DetailUrls(db, f))
  {
    ByIndexIsLawful(db, f);
    var all, shown := Listing(ByIndex(), ImageSet(db, f)), ShownImages(db, f);
    ListingIsSorted(ByIndex(), ImageSet(db, f));
    KeepSorted(ByIndex(), all, shown);
    forall image ensures image in Keep(all, shown) <==> image in shown {
      KeepHas(all, shown, image);
    }
    ListingIs(ByIndex(), shown, Keep(all, shown));
    KeepNonEmpty(all, shown);
  }

  lemma {:induction false} ImageRefsHas(rows: seq<JoinRow>, image: ImageRef)
    ensures image in ImageRefs(rows) <==> exists row <- rows :: HasImage(row) && row.image.value == image
  {
    if rows != [] {
      var front, last := rows[..|rows| - 1], rows[|rows| - 1];
      assert rows == front + [last];
      ImageRefsHas(front, image);
    }
  }

  /** Rows of one feed, in the order of the query. */
  ghost predicate OwnSorted(nameLe: (string, string) -> bool, own: seq<JoinRow>) {
    forall i, j | 0 <= i < j < |own| :: OwnLe(nameLe, own[i], own[j])
  }

  lemma OwnSortedSnoc(nameLe: (string, string) -> bool, own: seq<JoinRow>, last: JoinRow)
    requires OwnSorted(nameLe, own) && forall row <- own :: OwnLe(nameLe, row, last)
    ensures OwnSorted(nameLe, own + [last])
  {
    hide OwnLe;
    assert forall i | 0 <= i < |own| :: own[i] in own;
  }

  lemma {:induction false} RowsOfSorted(
    direction: Direction, nameLe: (string, string) -> bool, rows: seq<JoinRow>, f: Uuid, t: Time)
    requires forall i, j | 0 <= i < j < |rows| :: RowLe(direction, nameLe, rows[i], rows[j])
    requires forall row | row in rows && row.id == f :: row.createdAt == t
    ensures OwnSorted(nameLe, RowsOf(rows, f))
  {
    if rows == [] {
      assert RowsOf(rows, f) == [];
    } else {
      var front, last := rows[..|rows| - 1], rows[|rows| - 1];
      assert rows == front + [last];
      assert forall i, j | 0 <= i < j < |front| :: front[i] == rows[i] && front[j] == rows[j];
      hide RowsOf, RowLe, OwnLe, OwnSorted;
      RowsOfSorted(direction, nameLe, front, f, t);
      RowsSnoc(front, last, f);
      if last.id == f {
        forall row | row in RowsOf(front, f) ensures OwnLe(nameLe, row, last) {
          BehindOwn(direction, nameLe, rows, f, t, row);
        }
        OwnSortedSnoc(nameLe, RowsOf(front, f), last);
      }
    }
  }

  /** The last row of a feed comes behind the feed's rows before it. */
  lemma BehindOwn(
    direction: Direction, nameLe: (string, string) -> bool, rows: seq<JoinRow>, f: Uuid, t: Time, row: JoinRow)
    requires forall i, j | 0 <= i < j < |rows| :: RowLe(direction, nameLe, rows[i], rows[j])
    requires forall r | r in rows && r.id == f :: r.createdAt == t
    requires rows != [] && rows[|rows| - 1].id == f && row in RowsOf(rows[..|rows| - 1], f)
    ensures OwnLe(nameLe, row, rows[|rows| - 1])
  {
    var front, last := rows[..|rows| - 1], rows[|rows| - 1];
    RowsOfNonempty(front, f);
    var i :| 0 <= i < |front| && front[i] == row;
    assert rows[i] in rows && last in rows;
    hide RowsOf, OwnLe;
    assert RowLe(direction, nameLe, rows[i], rows[|front|]);
  }

  /** The rows of a feed in the join are sorted by image and member. */
  lemma JoinRowsOfSorted(
    db: Db, chosen: seq<Uuid>, direction: Direction, nameLe: (string, string) -> bool, rows: seq<JoinRow>, f: Uuid)
    requires IsJoin(db, chosen, direction, nameLe, rows)
    ensures OwnSorted(nameLe, RowsOf(rows, f))
  {
    RowsOfSorted(direction, nameLe, rows, f, if f in db.feeds then db.feeds[f].createdAt else 0);
  }

  ghost predicate IndexOrdered(refs: seq<ImageRef>) {
    forall i, j | 0 <= i < j < |refs| :: refs[i].index <= refs[j].index
  }

  lemma IndexOrderedSnoc(refs: seq<ImageRef>, last: ImageRef)
    requires IndexOrdered(refs) && forall image <- refs :: image.index <= last.index
    ensures IndexOrdered(refs + [last])
  {
    assert forall i | 0 <= i < |refs| :: refs[i] in refs;
  }

  lemma ImageRefsSnoc(own: seq<JoinRow>, last: JoinRow)
    ensures ImageRefs(own + [last]) == if HasImage(last) then ImageRefs(own) + [last.image.value] else ImageRefs(own)
  {
    assert (own + [last])[..|own|] == own;
  }

  /** An image among the rows before a row does not come behind the row's own. */
  lemma ImageBehind(nameLe: (string, string) -> bool, front: seq<JoinRow>, last: JoinRow, image: ImageRef)
    requires OwnSorted(nameLe, front + [last]) && HasImage(last) && image in ImageRefs(front)
    ensures image.index <= last.image.value.index
  {
    ImageRefsHas(front, image);
    var row :| row in front && HasImage(row) && row.image.value == image;
    var i :| 0 <= i < |front| && front[i] == row;
    assert OwnLe(nameLe, (front + [last])[i], (front + [last])[|front|]);
  }

  lemma OwnSortedFront(nameLe: (string, string) -> bool, front: seq<JoinRow>, last: JoinRow)
    requires OwnSorted(nameLe, front + [last])
    ensures OwnSorted(nameLe, front)
  {
    hide OwnLe;
    var own := front + [last];
    assert forall i | 0 <= i < |front| :: front[i] == own[i];
  }

  /** The rows of a feed list its images by index. */
  lemma {:induction false} ImageRefsSorted(nameLe: (string, string) -> bool, own: seq<JoinRow>)
    requires OwnSorted(nameLe, own)
    ensures IndexOrdered(ImageRefs(own))
  {
    if own == [] {
      assert ImageRefs([]) == [];
    } else {
      hide OwnSorted, ImageRefs, IndexOrdered;
      var front, last := own[..|own| - 1], own[|own| - 1];
      assert own == front + [last];
      OwnSortedFront(nameLe, front, last);
      ImageRefsSorted(nameLe, front);
      ImageRefsSnoc(front, last);
      if HasImage(last) {
        forall image | image in ImageRefs(front) ensures image.index <= last.image.value.index {
          ImageBehind(nameLe, front, last, image);
        }
        IndexOrderedSnoc(ImageRefs(front), last.image.value);
      }
    }
  }

  /** The images of an entry are the non-empty urls of the detail view, each once. */
  lemma FoldUndoesImages(
    db: Db, chosen: seq<Uuid>, direction: Direction, nameLe: (string, string) -> bool, rows: seq<JoinRow>, f: Uuid)
    requires IsJoin(db, chosen, direction, nameLe, rows) && RowsOf(rows, f) != []
    ensures EntryOf(rows, f).images == Distinct(NonEmpty(DetailUrls(db, f)))
  {
    var own := RowsOf(rows, f);
    JoinRowsOfSorted(db, chosen, direction, nameLe, rows, f);
    ImageRefsSorted(nameLe, own);
    var refs := ImageRefs(own);
    ImageRefsAreSet(db, chosen, direction, nameLe, rows, f);
    DistinctElements(refs);
    DistinctSorted(refs, (a: ImageRef, b: ImageRef) => a.index <= b.index);
    ByIndexIsLawful(db, f);
    forall i, j | 0 <= i < j < |Distinct(refs)| ensures ByIndex().Precedes(Distinct(refs)[i], Distinct(refs)[j]) {
      assert Distinct(refs)[i] in refs && Distinct(refs)[j] in refs;
    }
    ListingIs(ByIndex(), ShownImages(db, f), Distinct(refs));
    ShownUrls(db, f);
    DistinctMap(Url, refs);
  }

  lemma ImageRefsAreSet(
    db: Db, chosen: seq<Uuid>, direction: Direction, nameLe: (string, string) -> bool, rows: seq<JoinRow>, f: Uuid)
    requires IsJoin(db, chosen, direction, nameLe, rows) && RowsOf(rows, f) != []
    ensures forall image :: image in ImageRefs(RowsOf(rows, f)) <==> image in ShownImages(db, f)
  {
    var own := RowsOf(rows, f);
    RowsOfNonempty(rows, f);
    forall image ensures image in ImageRefs(own) <==> image in ShownImages(db, f) {
      ImageRefsHas(own, image);
      if image in ShownImages(db, f) {
        var row := own[0].(image := Some(image));
        assert own[0] in own && own[0] in rows;
        assert row in rows && row in own;
      }
      if image in ImageRefs(own) {
        var row :| row in own && HasImage(row) && row.image.value == image;
        assert row in rows;
        assert (f, image.index) in db.images;
      }
    }
  }

  // ---- Participants ----

  lemma {:induction false} MembersHas(rows: seq<JoinRow>, user: User)
    ensures user in Members(rows) <==> exists row <- rows :: HasMember(row) && row.member.value == user
  {
    if rows != [] {
      var front, last := rows[..|rows| - 1], rows[|rows| - 1];
      assert rows == front + [last];
      MembersHas(front, user);
    }
  }

  lemma {:induction false} FirstByIdIsDistinct(users: seq<User>)
    requires forall a, b | a in users && b in users && a.id == b.id :: a == b
    ensures FirstById(users) == Distinct(users)
  {
    if users != [] {
      var front, last := users[..|users| - 1], users[|users| - 1];
      assert users == front + [last];
      FirstByIdIsDistinct(front);
      DistinctElements(front);
    }
  }

  /** Any row with another image of the same feed, or with another of its participants, is a row too. */
  lemma RowsMix(
    db: Db, chosen: seq<Uuid>, direction: Direction, nameLe: (string, string) -> bool, rows: seq<JoinRow>, f: Uuid,
    a: JoinRow, b: JoinRow)
    requires IsJoin(db, chosen, direction, nameLe, rows) && a in RowsOf(rows, f) && b in RowsOf(rows, f)
    ensures b.(image := a.image) in RowsOf(rows, f)
  {
    RowsOfNonempty(rows, f);
    assert b.(image := a.image) in rows;
  }

  /** A participant who appears for the first time does so with the first image, behind smaller names. */
  lemma NewMemberFollows(
    db: Db, chosen: seq<Uuid>, direction: Direction, nameLe: (string, string) -> bool, rows: seq<JoinRow>, f: Uuid,
    n: nat)
    requires IsJoin(db, chosen, direction, nameLe, rows) && n < |RowsOf(rows, f)|
    requires HasMember(RowsOf(rows, f)[n])
    requires RowsOf(rows, f)[n].member.value !in Members(RowsOf(rows, f)[..n])
    ensures forall m <- Members(RowsOf(rows, f)[..n]) :: nameLe(m.name, RowsOf(rows, f)[n].member.value.name)
  {
    var own := RowsOf(rows, f);
    var last := own[n];
    JoinRowsOfSorted(db, chosen, direction, nameLe, rows, f);
    assert own[0] in own && last in own;
    RowsMix(db, chosen, direction, nameLe, rows, f, own[0], last);
    var mixed := last.(image := own[0].image);
    assert mixed !in own[..n] by {
      MembersHas(own[..n], last.member.value);
    }
    assert forall k | 0 <= k < n :: own[k] in own[..n];
    var j :| 0 <= j < |own| && own[j] == mixed;
    hide IsJoin, RowsOf, Members, OwnSorted;
    forall m | m in Members(own[..n]) ensures nameLe(m.name, last.member.value.name) {
      SmallerName(nameLe, own, n, j, m);
    }
  }

  /** Up to the first row with a new participant all rows show the first image. */
  lemma SmallerName(nameLe: (string, string) -> bool, own: seq<JoinRow>, n: nat, j: nat, m: User)
    requires OwnSorted(nameLe, own) && n <= j < |own| && HasMember(own[n])
    requires own[j] == own[n].(image := own[0].image) && m in Members(own[..n])
    ensures nameLe(m.name, own[n].member.value.name)
  {
    MembersHas(own[..n], m);
    var row :| row in own[..n] && HasMember(row) && row.member.value == m;
    var i :| 0 <= i < n && own[i] == row;
    assert OwnLe(nameLe, own[i], own[n]);
    assert j > n ==> OwnLe(nameLe, own[n], own[j]);
    assert i > 0 ==> OwnLe(nameLe, own[0], own[i]);
  }

  ghost predicate InNameOrder(nameLe: (string, string) -> bool, users: seq<User>) {
    forall i, j | 0 <= i < j < |users| :: nameLe(users[i].name, users[j].name)
  }

  /** What the last of the first rows adds to the participants. */
  lemma MembersSnoc(rows: seq<JoinRow>, row: JoinRow)
    ensures HasMember(row) ==>
              Distinct(Members(rows + [row]))
              == if row.member.value in Members(rows) then Distinct(Members(rows))
                 else Distinct(Members(rows)) + [row.member.value]
    ensures !HasMember(row) ==> Members(rows + [row]) == Members(rows)
  {
    assert (rows + [row])[..|rows|] == rows;
    if HasMember(row) {
      DistinctElements(Members(rows));
      DistinctSnoc(Members(rows), row.member.value);
    }
  }

  lemma NamesSnoc(nameLe: (string, string) -> bool, rows: seq<JoinRow>, row: JoinRow)
    requires InNameOrder(nameLe, Distinct(Members(rows)))
    requires HasMember(row) && row.member.value !in Members(rows) ==>
               forall m <- Members(rows) :: nameLe(m.name, row.member.value.name)
    ensures InNameOrder(nameLe, Distinct(Members(rows + [row])))
  {
    hide Members, Distinct;
    MembersSnoc(rows, row);
    DistinctElements(Members(rows));
    assert forall i | 0 <= i < |Distinct(Members(rows))| :: Distinct(Members(rows))[i] in Members(rows);
  }

  lemma NoNames(nameLe: (string, string) -> bool)
    ensures InNameOrder(nameLe, Distinct(Members([])))
  {
  }

  /** Participants first appear in name order. */
  lemma {:induction false} MembersFirstInOrder(
    db: Db, chosen: seq<Uuid>, direction: Direction, nameLe: (string, string) -> bool, rows: seq<JoinRow>, f: Uuid,
    n: nat)
    requires IsJoin(db, chosen, direction, nameLe, rows) && n <= |RowsOf(rows, f)|
    ensures InNameOrder(nameLe, Distinct(Members(RowsOf(rows, f)[..n])))
  {
    hide IsJoin, RowsOf, Members, Distinct, InNameOrder;
    var own := RowsOf(rows, f);
    if n == 0 {
      assert own[..n] == [];
      NoNames(nameLe);
    } else {
      MembersFirstInOrder(db, chosen, direction, nameLe, rows, f, n - 1);
      if HasMember(own[n - 1]) && own[n - 1].member.value !in Members(own[..n - 1]) {
        NewMemberFollows(db, chosen, direction, nameLe, rows, f, n - 1);
      }
      NamesSnoc(nameLe, own[..n - 1], own[n - 1]);
      assert own[..n] == own[..n - 1] + [own[n - 1]];
    }
  }

  /** The active participants other than the writer, as far as they have a name and an account. */
  ghost predicate Accompanies(db: Db, f: Uuid, user: User)
    requires ActiveFeed(db, f)
  {
    && JoinsGathering(db, f) && Participates(db, db.feeds[f].gatheringId.value, user.id)
    && ActiveUser(db.users, user.id) && user == UserOf(db, user.id)
    && user.name != "" && user.accountId != "" && user.id != db.feeds[f].writerId
  }

  lemma MembersAreCompany(
    db: Db, chosen: seq<Uuid>, direction: Direction, nameLe: (string, string) -> bool, rows: seq<JoinRow>, f: Uuid)
    requires IsJoin(db, chosen, direction, nameLe, rows) && RowsOf(rows, f) != [] && ActiveFeed(db, f)
    ensures forall user :: user in Members(RowsOf(rows, f)) <==> Accompanies(db, f, user)
  {
    var own := RowsOf(rows, f);
    RowsOfNonempty(rows, f);
    forall user ensures user in Members(own) <==> Accompanies(db, f, user) {
      MembersHas(own, user);
      if Accompanies(db, f, user) {
        var row := own[0].(member := Some(user));
        assert own[0] in own && own[0] in rows;
        assert row in rows && row in own;
      }
    }
  }

  /** `withMembers` lists exactly the company of the feed, each once, in name order. */
  lemma FoldUndoesMembers(
    db: Db, chosen: seq<Uuid>, direction: Direction, nameLe: (string, string) -> bool, rows: seq<JoinRow>, f: Uuid)
    requires IsJoin(db, chosen, direction, nameLe, rows) && RowsOf(rows, f) != [] && ActiveFeed(db, f)
    ensures var ms := EntryOf(rows, f).withMembers;
            && NoRepeats(ms)
            && (forall user :: user in ms <==> Accompanies(db, f, user))
            && InNameOrder(nameLe, ms)
  {
    var own := RowsOf(rows, f);
    MembersAreCompany(db, chosen, direction, nameLe, rows, f);
    FirstByIdIsDistinct(Members(own));
    DistinctElements(Members(own));
    assert EntryOf(rows, f).withMembers == Distinct(Members(own));
    assert own[..|own|] == own;
    MembersFirstInOrder(db, chosen, direction, nameLe, rows, f, |own|);
  }
}
