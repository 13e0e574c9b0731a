/** The note record, `createNote`, the field updates of `updateNote`, the
    `find` by id, and the order of `getNotesOrderedByDate`. */
module Notes {
  import opened Wrappers
  import opened Text
  import opened Seqs
  import opened Derive

  /** A note as the store keeps it. Timestamps are milliseconds; `id` is the
      clock reading taken when the note was created. */
  datatype Note = Note(
    id: int,
    content: string,
    title: string,
    excerpt: string,
    createdAt: int,
    updatedAt: int,
    favorite: bool)

  /** The `updates` argument of `updateNote`; an absent field is `None`. */
  datatype Updates = Updates(content: Option<string>, title: Option<string>, favorite: Option<bool>)

  /** What the store guarantees of every note it holds: the content is not
      blank, the title is not empty, and the excerpt is the one derived from
      the current content. */
  predicate WellFormed(n: Note)
    ensures WellFormed(n) ==> n.excerpt != "" && |n.excerpt| <= DefaultExcerptLength + |Ellipsis|
  {
    && !Blank(n.content)
    && n.title != ""
    && n.excerpt == DeriveExcerpt(n.content, Some(DefaultExcerptLength))
  }

  /** `createNote(content, title)`, with `id` and `now` the two clock readings
      it takes. It fails exactly on blank content; otherwise the note keeps the
      content as given, takes the supplied title unless that is absent or
      empty, and starts as a non-favourite with equal timestamps. */
  function CreateNote(content: string, title: Option<string>, id: int, now: int): (r: Option<Note>)
    ensures r.None? <==> Blank(content)
    ensures r.Some? ==>
      && WellFormed(r.value)
      && r.value.id == id
      && r.value.content == content
      && r.value.title == (if title.Some? && title.value != "" then title.value else Title(content))
      && r.value.excerpt == DeriveExcerpt(content, Some(DefaultExcerptLength))
      && r.value.createdAt == r.value.updatedAt == now
      && !r.value.favorite
  {
    if Trim(content) == "" then None
    else
      var noteTitle := if title.None? || title.value == "" then Title(content) else title.value;
      Some(Note(id, content, noteTitle, DeriveExcerpt(content, Some(DefaultExcerptLength)), now, now, false))
  }

  /** The note `updateNote` leaves behind once validation has passed: new
      content re-derives title and excerpt, a non-empty title then overrides
      the title, a supplied flag replaces `favorite`, and `updatedAt`
      becomes `now` in every case. */
  function ApplyUpdates(n: Note, u: Updates, now: int): (r: Note)
    ensures r.id == n.id && r.createdAt == n.createdAt && r.updatedAt == now
    ensures r.content == (if u.content.Some? then u.content.value else n.content)
    ensures r.excerpt == (if u.content.Some? then DeriveExcerpt(u.content.value, Some(DefaultExcerptLength)) else n.excerpt)
    ensures r.title == (if u.title.Some? && u.title.value != "" then u.title.value
                        else if u.content.Some? then Title(u.content.value)
                        else n.title)
    ensures r.favorite == (if u.favorite.Some? then u.favorite.value else n.favorite)
  {
    var n1 := if u.content.Some?
      then n.(content := u.content.value, title := Title(u.content.value),
              excerpt := DeriveExcerpt(u.content.value, Some(DefaultExcerptLength)))
      else n;
    var n2 := if u.title.Some? && u.title.value != "" then n1.(title := u.title.value) else n1;
    var n3 := if u.favorite.Some? then n2.(favorite := u.favorite.value) else n2;
    n3.(updatedAt := now)
  }

  /** An update whose content (if any) is not blank keeps a well-formed note
      well-formed. */
  lemma ApplyUpdatesWellFormed(n: Note, u: Updates, now: int)
    requires WellFormed(n)
    requires u.content.None? || !Blank(u.content.value)
    ensures WellFormed(ApplyUpdates(n, u, now))
  {
  }

  /** An update that only sets the flag leaves content, title and excerpt
      as they were. */
  lemma FavoriteOnlyKeepsText(n: Note, f: bool, now: int)
    ensures var r := ApplyUpdates(n, Updates(None, None, Some(f)), now);
            r == n.(favorite := f, updatedAt := now)
  {
  }

  /** `notes.find(note => note.id === id)`, as an index: the position of the
      first note with this id, or `None` when no note has it. */
  function FindIndex(s: seq<Note>, id: int): (r: Option<nat>)
    ensures r.Some? ==> r.value < |s| && s[r.value].id == id
                        && forall j :: 0 <= j < r.value ==> s[j].id != id
    ensures r.None? ==> forall j :: 0 <= j < |s| ==> s[j].id != id
  {
    if s == [] then None
    else if s[0].id == id then Some(0)
    else
      match FindIndex(s[1..], id)
      case None => None
      case Some(k) => Some(k + 1)
  }

  /** The test `note.id !== id` of `deleteNote`'s filter. */
  function OtherId(id: int): Note -> bool {
    (n: Note) => n.id != id
  }

  /** `notes.filter(note => note.id !== id)`. */
  function WithoutId(s: seq<Note>, id: int): (r: seq<Note>)
    ensures |r| <= |s|
    ensures forall n :: n in r <==> n in s && n.id != id
  {
    forall n ensures n in Filter(OtherId(id), s) <==> n in s && n.id != id {
      FilterMembers(OtherId(id), s, n);
    }
    Filter(OtherId(id), s)
  }

  /** With ids unique, removing an id that occurs removes exactly one note. */
  lemma {:induction false} WithoutUniqueId(s: seq<Note>, id: int, k: nat)
    requires k < |s| && s[k].id == id
    requires forall j :: 0 <= j < |s| && j != k ==> s[j].id != id
    ensures |WithoutId(s, id)| == |s| - 1
  {
    assert s == [s[0]] + s[1..];
    if k == 0 {
      FilterAll(OtherId(id), s[1..]);
    } else {
      WithoutUniqueId(s[1..], id, k - 1);
    }
  }

  /** The test `note.favorite === true` of `getFavoriteNotes`. */
  predicate IsFavorite(n: Note) {
    n.favorite
  }

  /** `notes.filter(note => note.favorite === true)`. */
  function Favorites(s: seq<Note>): (r: seq<Note>)
    ensures |r| <= |s|
    ensures forall n :: n in r <==> n in s && n.favorite
  {
    forall n ensures n in Filter(IsFavorite, s) <==> n in s && n.favorite {
      FilterMembers(IsFavorite, s, n);
    }
    Filter(IsFavorite, s)
  }

  /** The lower-cased, trimmed query that `searchNotes` looks for; it is
      empty exactly when the query is blank. */
  function SearchKey(query: string): (r: string)
    ensures |r| <= |query|
    ensures r == "" <==> Blank(query)
  {
    LowerBlank(query);
    Trim(Lower(query))
  }

  /** The test of `searchNotes`: the lower-cased title or the lower-cased
      content contains `key`. The empty key matches every note, which is why
      a blank query is answered before the filter runs. */
  predicate Matches(n: Note, key: string)
    ensures key == "" ==> Matches(n, key)
  {
    assert key == "" ==> OccursAt(Lower(n.title), key, 0);
    Contains(Lower(n.title), key) || Contains(Lower(n.content), key)
  }

  /** `Matches` for a fixed key, as the callback of `searchNotes`' filter. */
  function MatchesKey(key: string): Note -> bool {
    (n: Note) => Matches(n, key)
  }

  /** The notes of `s` that match `key`, in the order of `s`. */
  function Matching(s: seq<Note>, key: string): (r: seq<Note>)
    ensures |r| <= |s|
    ensures forall n :: n in r <==> n in s && Matches(n, key)
  {
    forall n ensures n in Filter(MatchesKey(key), s) <==> n in s && Matches(n, key) {
      FilterMembers(MatchesKey(key), s, n);
    }
    Filter(MatchesKey(key), s)
  }

  /** `b.updatedAt - a.updatedAt` as a comparator: most recently updated first. */
  ghost predicate SortedByDate(s: seq<Note>) {
    forall i, j :: 0 <= i < j < |s| ==> s[i].updatedAt >= s[j].updatedAt
  }

  /** The notes of `s` updated at time `t`, in the order of `s`; a stable sort
      by `updatedAt` keeps every such group in its original order. */
  function UpdatedAt(s: seq<Note>, t: int): seq<Note> {
    Filter(UpdatedAtTime(t), s)
  }

  /** The test "updated at time `t`". */
  function UpdatedAtTime(t: int): Note -> bool {
    (n: Note) => n.updatedAt == t
  }

  /** Inserts `x` into `s` before the first note that is not more recent,
      so `x` stays ahead of the notes it ties with. */
  function Insert(x: Note, s: seq<Note>): (r: seq<Note>)
    ensures multiset(r) == multiset(s) + multiset{x}
  {
    if s == [] || x.updatedAt >= s[0].updatedAt then [x] + s
    else
      assert s == [s[0]] + s[1..];
      [s[0]] + Insert(x, s[1..])
  }

  /** The copy that `getNotesOrderedByDate` sorts: a stable sort by
      `updatedAt`, most recent first, written as an insertion sort. */
  function SortByDate(s: seq<Note>): (r: seq<Note>)
    ensures multiset(r) == multiset(s)
  {
    if s == [] then []
    else
      assert s == [s[0]] + s[1..];
      Insert(s[0], SortByDate(s[1..]))
  }

  /** Inserting a note no more recent than `bound` among notes no more
      recent than `bound` gives notes no more recent than `bound`. */
  lemma {:induction false} InsertBounded(x: Note, s: seq<Note>, bound: int)
    requires x.updatedAt <= bound
    requires forall i :: 0 <= i < |s| ==> s[i].updatedAt <= bound
    ensures forall i :: 0 <= i < |Insert(x, s)| ==> Insert(x, s)[i].updatedAt <= bound
  {
    if s != [] && x.updatedAt < s[0].updatedAt {
      InsertBounded(x, s[1..], bound);
    }
  }

  /** Inserting into a list sorted by date keeps it sorted. */
  lemma {:induction false} InsertSorted(x: Note, s: seq<Note>)
    requires SortedByDate(s)
    ensures SortedByDate(Insert(x, s))
  {
    if s != [] && x.updatedAt < s[0].updatedAt {
      var s1 := s[1..];
      InsertSorted(x, s1);
      InsertBounded(x, s1, s[0].updatedAt);
    }
  }

  /** A one-note list holds that note among those updated at `t` exactly
      when it was updated at `t`. */
  lemma UpdatedAtSingle(x: Note, t: int)
    ensures UpdatedAt([x], t) == if x.updatedAt == t then [x] else []
  {
    assert [x][1..] == [];
  }

  /** `Insert` puts `x` ahead of every note it ties with, so among the notes
      updated at `t` it comes first and the others keep their order. */
  lemma {:induction false} InsertUpdatedAt(x: Note, s: seq<Note>, t: int)
    ensures UpdatedAt(Insert(x, s), t) == (if x.updatedAt == t then [x] else []) + UpdatedAt(s, t)
  {
    var head := if x.updatedAt == t then [x] else [];
    if s == [] || x.updatedAt >= s[0].updatedAt {
      assert UpdatedAt([x] + s, t) == head + UpdatedAt(s, t) by {
        UpdatedAtSingle(x, t);
        FilterAppend(UpdatedAtTime(t), [x], s);
      }
    } else {
      var s0, s1 := s[0], s[1..];
      var first := if s0.updatedAt == t then [s0] else [];
      assert UpdatedAt(s, t) == first + UpdatedAt(s1, t) by {
        assert s == [s0] + s1;
        UpdatedAtSingle(s0, t);
        FilterAppend(UpdatedAtTime(t), [s0], s1);
      }
      InsertUpdatedAt(x, s1, t);
      assert UpdatedAt([s0] + Insert(x, s1), t) == first + UpdatedAt(Insert(x, s1), t) by {
        UpdatedAtSingle(s0, t);
        FilterAppend(UpdatedAtTime(t), [s0], Insert(x, s1));
      }
      assert x.updatedAt == t ==> first == [];
    }
  }

  /** `getNotesOrderedByDate` sorts a permutation of the notes, most recently
      updated first, and notes updated at the same time keep their relative
      order (JavaScript's `Array.prototype.sort` is stable). */
  lemma {:induction false} SortByDateCorrect(s: seq<Note>)
    ensures multiset(SortByDate(s)) == multiset(s)
    ensures SortedByDate(SortByDate(s))
    ensures forall t :: UpdatedAt(SortByDate(s), t) == UpdatedAt(s, t)
  {
    if s != [] {
      SortByDateCorrect(s[1..]);
      InsertSorted(s[0], SortByDate(s[1..]));
      forall t ensures UpdatedAt(SortByDate(s), t) == UpdatedAt(s, t) {
        InsertUpdatedAt(s[0], SortByDate(s[1..]), t);
        assert s == [s[0]] + s[1..];
        FilterAppend(UpdatedAtTime(t), [s[0]], s[1..]);
      }
    }
  }
}
