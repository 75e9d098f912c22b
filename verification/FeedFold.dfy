/**
 The outer query of the feed lists returns one flat row per feed, image and participant; a loop folds
 the rows back into feeds. Here the loop is proved to collect, for rows in any order, the distinct
 images and participants of each feed.
 */
module FeedFold {
  import opened Prelude

  datatype User = User(id: Uuid, accountId: string, name: string)

  datatype GatheringInfo = GatheringInfo(id: Uuid, name: string, gatheringDate: Time)

  datatype ImageRef = ImageRef(index: nat, url: string)

  /** One flat row; the left joins leave `None` where there is nothing to join. */
  datatype JoinRow = JoinRow(
    id: Uuid, content: string, createdAt: Time, writer: User,
    gathering: Option<GatheringInfo>, image: Option<ImageRef>, member: Option<User>)

  datatype Feed = Feed(
    id: Uuid, content: string, createdAt: Time, writer: User,
    gathering: Option<GatheringInfo>, images: seq<string>, withMembers: seq<User>)

  // ---- The fold, for rows in any order ----

  /** The row carries a usable image. */
  predicate HasImage(row: JoinRow) {
    row.image.Some? && row.image.value.url != ""
  }

  /** The row carries a usable participant other than the writer. */
  predicate HasMember(row: JoinRow) {
    row.member.Some? && row.member.value.accountId != "" && row.member.value.name != ""
    && row.writer.id != row.member.value.id
  }

  function Ids(rows: seq<JoinRow>): seq<Uuid> {
    MapSeq((row: JoinRow) => row.id, rows)
  }

  function RowsOf(rows: seq<JoinRow>, id: Uuid): seq<JoinRow> {
    if rows == [] then []
    else
      var front, last := RowsOf(rows[..|rows| - 1], id), rows[|rows| - 1];
      if last.id == id then front + [last] else front
  }

  function ImageRefs(rows: seq<JoinRow>): seq<ImageRef> {
    if rows == [] then []
    else
      var front, last := ImageRefs(rows[..|rows| - 1]), rows[|rows| - 1];
      if HasImage(last) then front + [last.image.value] else front
  }

  function Url(image: ImageRef): string {
    image.url
  }

  /** The image urls of the rows, in order and with the repeats the join makes. */
  function Urls(rows: seq<JoinRow>): seq<string> {
    MapSeq(Url, ImageRefs(rows))
  }

  function Members(rows: seq<JoinRow>): seq<User> {
    if rows == [] then []
    else
      var front, last := Members(rows[..|rows| - 1]), rows[|rows| - 1];
      if HasMember(last) then front + [last.member.value] else front
  }

  predicate HasId(users: seq<User>, id: Uuid) {
    exists u <- users :: u.id == id
  }

  /** The first user of each identifier. */
  function FirstById(users: seq<User>): seq<User> {
    if users == [] then []
    else
      var front, last := FirstById(users[..|users| - 1]), users[|users| - 1];
      if HasId(front, last.id) then front else front + [last]
  }

  function Header(row: JoinRow): Feed {
    Feed(row.id, row.content, row.createdAt, row.writer,
         if row.gathering.Some? && row.gathering.value.name != "" then row.gathering else None, [], [])
  }

  /** What rows of one feed fold into, on top of the fields of the first one. */
  function Folded(first: JoinRow, own: seq<JoinRow>): Feed {
    Header(first).(images := Distinct(Urls(own)), withMembers := FirstById(Members(own)))
  }

  /** The entry of one feed after a number of rows. */
  function EntryOf(rows: seq<JoinRow>, id: Uuid): Feed
    requires RowsOf(rows, id) != []
  {
    Folded(RowsOf(rows, id)[0], RowsOf(rows, id))
  }

  /** The fold as the reader of the feed list sees it: one entry per feed, in order of first appearance. */
  ghost predicate IsFoldOf(feeds: seq<Feed>, rows: seq<JoinRow>) {
    && |feeds| == |Distinct(Ids(rows))|
    && forall i | 0 <= i < |feeds| ::
         RowsOf(rows, Distinct(Ids(rows))[i]) != [] && feeds[i] == EntryOf(rows, Distinct(Ids(rows))[i])
  }

  lemma RowsSnoc(rows: seq<JoinRow>, row: JoinRow, id: Uuid)
    ensures RowsOf(rows + [row], id) == if row.id == id then RowsOf(rows, id) + [row] else RowsOf(rows, id)
    ensures Ids(rows + [row]) == Ids(rows) + [row.id]
  {
    assert (rows + [row])[..|rows|] == rows;
  }

  lemma {:induction false} RowsOfNonempty(rows: seq<JoinRow>, id: Uuid)
    ensures RowsOf(rows, id) != [] <==> id in Ids(rows)
    ensures forall row <- RowsOf(rows, id) :: row.id == id
    ensures forall row :: row in RowsOf(rows, id) <==> row in rows && row.id == id
  {
    if rows != [] {
      var front, last := rows[..|rows| - 1], rows[|rows| - 1];
      assert rows == front + [last];
      RowsSnoc(front, last, id);
      RowsOfNonempty(front, id);
    }
  }

  /** What the two `find`-and-push statements make of an entry. */
  function Pushed(was: Feed, row: JoinRow): Feed {
    was.(
      images :=
        if HasImage(row) && row.image.value.url !in was.images
        then was.images + [row.image.value.url] else was.images,
      withMembers :=
        if HasMember(row) && !HasId(was.withMembers, row.member.value.id)
        then was.withMembers + [row.member.value] else was.withMembers)
  }

  lemma FoldSnoc(first: JoinRow, own: seq<JoinRow>, row: JoinRow)
    ensures Folded(first, own + [row]) == Pushed(Folded(first, own), row)
  {
    assert (own + [row])[..|own|] == own;
    if HasImage(row) {
      MapSnoc(Url, ImageRefs(own), row.image.value);
      DistinctSnoc(Urls(own), row.image.value.url);
    }
    if HasMember(row) {
      assert (Members(own) + [row.member.value])[..|Members(own)|] == Members(own);
    }
  }

  /** The loop of `findFeeds`: `keys` is the insertion order of the dictionary `result`. */
  method FindFeeds(rows: seq<JoinRow>) returns (feeds: seq<Feed>)
    ensures IsFoldOf(feeds, rows)
  {
    hide RowsOf, Folded, Distinct, Ids, EntryOf;
    NoRowsYet();
    var keys: seq<Uuid> := [];
    var result: map<Uuid, Feed> := map[];
    for n := 0 to |rows|
      invariant keys == Distinct(Ids(rows[..n]))
      invariant forall id :: id in result <==> RowsOf(rows[..n], id) != []
      invariant forall id :: id in result <==> id in keys
      invariant forall id | id in result :: result[id] == EntryOf(rows[..n], id)
    {
      var row := rows[n];
      ghost var before := rows[..n];
      assert rows[..n + 1] == before + [row];
      NextRow(before, row);
      if row.id !in result {
        result := result[row.id := Header(row)];
        keys := keys + [row.id];
      }
      var entry := result[row.id];
      ghost var was := entry;
      if HasImage(row) && row.image.value.url !in entry.images {
        entry := entry.(images := entry.images + [row.image.value.url]);
      }
      if HasMember(row) && !HasId(entry.withMembers, row.member.value.id) {
        entry := entry.(withMembers := entry.withMembers + [row.member.value]);
      }
      assert entry == Pushed(was, row);
      result := result[row.id := entry];
    }
    assert rows[..|rows|] == rows;
    feeds := seq(|keys|, i requires 0 <= i < |keys| => result[keys[i]]);
  }

  lemma NoRowsYet()
    ensures Distinct(Ids([])) == [] && forall id :: RowsOf([], id) == []
  {
  }

  /** How one row moves the keys and the entries. */
  lemma NextRow(before: seq<JoinRow>, row: JoinRow)
    ensures Distinct(Ids(before + [row]))
         == if row.id in Distinct(Ids(before)) then Distinct(Ids(before)) else Distinct(Ids(before)) + [row.id]
    ensures forall id | id != row.id ::
              && RowsOf(before + [row], id) == RowsOf(before, id)
              && (RowsOf(before, id) != [] ==> EntryOf(before + [row], id) == EntryOf(before, id))
    ensures RowsOf(before + [row], row.id) == RowsOf(before, row.id) + [row]
    ensures EntryOf(before + [row], row.id)
         == Pushed(if RowsOf(before, row.id) == [] then Header(row) else EntryOf(before, row.id), row)
  {
    RowsSnoc(before, row, row.id);
    DistinctSnoc(Ids(before), row.id);
    forall id ensures row.id != id ==> RowsOf(before + [row], id) == RowsOf(before, id) {
      RowsSnoc(before, row, id);
    }
    var own := RowsOf(before, row.id);
    FoldSnoc(if own == [] then row else own[0], own, row);
  }
}
