/** `createNotesStore`: the store that owns the list of notes and is the only
    code that adds, changes or removes them. */
module Store {
  import opened Wrappers
  import opened Text
  import opened Seqs
  import opened Derive
  import opened Notes

  const EmptyContentMessage: string := "El contenido no puede estar vacío"
  const InvalidIdMessage: string := "ID inválido"
  const NotFoundMessage: string := "Nota no encontrada"
  const DeletedMessage: string := "Nota eliminada exitosamente"

  /** The closure returned by `createNotesStore`; `notes` is its private
      array, in insertion order. The clock readings the source takes with
      `Date.now()` are parameters of the operations that take them. */
  class NotesStore {
    var notes: seq<Note>

    /** Every stored note is well-formed: non-blank content, a title, and
        the excerpt of its current content. So every stored note shows a
        non-empty title and a non-empty excerpt. */
    ghost predicate Valid()
      reads this
      ensures Valid() ==> forall i :: 0 <= i < |notes| ==> notes[i].title != "" && notes[i].excerpt != ""
    {
      forall i :: 0 <= i < |notes| ==> WellFormed(notes[i])
    }

    constructor ()
      ensures Valid() && notes == []
    {
      notes := [];
    }

    /** `addNote(content, title)`, where `id` and `now` are the readings
        `createNote` takes from the clock. Missing or blank content is
        rejected and nothing changes; otherwise exactly one note, the one
        `CreateNote` builds, is appended and returned. */
    method AddNote(content: Option<string>, title: Option<string>, id: int, now: int) returns (r: Result<Note>)
      requires Valid()
      modifies this
      ensures Valid()
      ensures content.None? || Blank(content.value) ==>
                r == Err(EmptyContentMessage) && notes == old(notes)
      ensures content.Some? && !Blank(content.value) ==>
                && r.Ok?
                && CreateNote(content.value, title, id, now) == Some(r.value)
                && notes == old(notes) + [r.value]
    {
      if content.None? || Trim(content.value) == "" {
        return Err(EmptyContentMessage);
      }
      // The source checks `createNote`'s result against null once more; that
      // case cannot arise, since CreateNote fails only on blank content.
      match CreateNote(content.value, title, id, now)
      case Some(note) =>
        ghost var before := notes;
        notes := notes + [note];
        assert Valid() by {
          forall j | 0 <= j < |notes| ensures WellFormed(notes[j]) {
            if j < |before| { assert notes[j] == before[j]; }
          }
        }
        r := Ok(note);
    }

    /** `getAllNotes()`: every stored note, in store order. */
    function GetAllNotes(): (r: seq<Note>)
      reads this
      ensures |r| == |notes| && forall i :: 0 <= i < |r| ==> r[i] == notes[i]
    {
      notes
    }

    /** `getNotesCount()`: the number of stored notes. */
    function GetNotesCount(): (r: nat)
      reads this
      ensures r == |GetAllNotes()|
    {
      |notes|
    }

    /** `getNoteById(id)`: the first stored note with this id, or `None` when
        the id is missing or no note has it. */
    function GetNoteById(id: Option<int>): (r: Option<Note>)
      reads this
      ensures r.None? <==> id.None? || forall k :: 0 <= k < |notes| ==> notes[k].id != id.value
      ensures r.Some? ==> r.value.id == id.value &&
                          exists k :: && 0 <= k < |notes| && notes[k] == r.value
                                      && forall j :: 0 <= j < k ==> notes[j].id != id.value
    {
      if id.None? then None
      else
        match FindIndex(notes, id.value)
        case None => None
        case Some(k) => Some(notes[k])
    }

    /** `updateNote(id, updates)`, with `now` the clock reading for
        `updatedAt`. A missing id, an id no note has, or blank new content is
        rejected with nothing changed. Otherwise only the first note with the
        id changes, into `ApplyUpdates` of itself, and is returned. */
    method UpdateNote(id: Option<int>, updates: Updates, now: int) returns (r: Result<Note>)
      requires Valid()
      modifies this
      ensures Valid()
      ensures id.None? ==> r == Err(InvalidIdMessage) && notes == old(notes)
      ensures id.Some? && FindIndex(old(notes), id.value).None? ==>
                r == Err(NotFoundMessage) && notes == old(notes)
      ensures id.Some? && FindIndex(old(notes), id.value).Some? &&
              updates.content.Some? && Blank(updates.content.value) ==>
                r == Err(EmptyContentMessage) && notes == old(notes)
      ensures id.Some? && FindIndex(old(notes), id.value).Some? &&
              (updates.content.None? || !Blank(updates.content.value)) ==>
                var k := FindIndex(old(notes), id.value).value;
                && r == Ok(ApplyUpdates(old(notes)[k], updates, now))
                && notes == old(notes)[k := r.value]
    {
      if id.None? {
        return Err(InvalidIdMessage);
      }
      var found := FindIndex(notes, id.value);
      if found.None? {
        return Err(NotFoundMessage);
      }
      var k := found.value;
      var note := notes[k];
      if updates.content.Some? {
        var content := updates.content.value;
        if Trim(content) == "" {
          return Err(EmptyContentMessage);
        }
        var title := DeriveTitle(content);
        note := note.(content := content, title := title,
                      excerpt := DeriveExcerpt(content, Some(DefaultExcerptLength)));
      }
      if updates.title.Some? && updates.title.value != "" {
        note := note.(title := updates.title.value);
      }
      if updates.favorite.Some? {
        note := note.(favorite := updates.favorite.value);
      }
      note := note.(updatedAt := now);
      assert note == ApplyUpdates(notes[k], updates, now);
      ApplyUpdatesWellFormed(notes[k], updates, now);
      ghost var before := notes;
      notes := notes[k := note];
      assert Valid() by {
        forall j | 0 <= j < |notes| ensures WellFormed(notes[j]) {
          if j != k { assert notes[j] == before[j]; }
        }
      }
      r := Ok(note);
    }

    /** `deleteNote(id)`: a missing id is rejected; otherwise every note with
        the id is removed and the others keep their order. It fails, with the
        notes unchanged, exactly when no note had the id. */
    method DeleteNote(id: Option<int>) returns (r: Result<string>)
      requires Valid()
      modifies this
      ensures Valid()
      ensures id.None? ==> r == Err(InvalidIdMessage) && notes == old(notes)
      ensures id.Some? ==> notes == WithoutId(old(notes), id.value)
      ensures id.Some? ==> forall k :: 0 <= k < |notes| ==> notes[k].id != id.value
      ensures id.Some? ==>
                if exists k :: 0 <= k < |old(notes)| && old(notes)[k].id == id.value
                then r == Ok(DeletedMessage) && |notes| < |old(notes)|
                else r == Err(NotFoundMessage) && notes == old(notes)
    {
      if id.None? {
        return Err(InvalidIdMessage);
      }
      var initialLength := |notes|;
      ghost var before := notes;
      notes := WithoutId(notes, id.value);
      FilterShorter(OtherId(id.value), before);
      forall k | 0 <= k < |notes| ensures WellFormed(notes[k]) {
        FilterMembers(OtherId(id.value), before, notes[k]);
      }
      if |notes| == initialLength {
        FilterAll(OtherId(id.value), before);
        return Err(NotFoundMessage);
      }
      r := Ok(DeletedMessage);
    }

    /** `searchNotes(query)`: nothing for a missing or blank query; otherwise
        the notes whose lower-cased title or content contains the lower-cased,
        trimmed query, each as often as it is stored, in store order. */
    function SearchNotes(query: Option<string>): (r: seq<Note>)
      reads this
      ensures query.None? || Blank(query.value) ==> r == []
      ensures query.Some? && !Blank(query.value) ==>
                var key := SearchKey(query.value);
                && key != []
                && IsSubsequence(r, notes)
                && forall n :: multiset(r)[n] == if Matches(n, key) then multiset(notes)[n] else 0
    {
      if query.None? || Trim(query.value) == "" then []
      else
        var key := SearchKey(query.value);
        LowerBlank(query.value);
        FilterSelects(MatchesKey(key), notes);
        Matching(notes, key)
    }

    /** `getNotesOrderedByDate()`: the stored notes, most recently updated
        first, with notes updated at the same time in store order. */
    function GetNotesOrderedByDate(): (r: seq<Note>)
      reads this
      ensures multiset(r) == multiset(notes)
      ensures SortedByDate(r)
      ensures forall t :: UpdatedAt(r, t) == UpdatedAt(notes, t)
    {
      SortByDateCorrect(notes);
      SortByDate(notes)
    }

    /** `getFavoriteNotes()`: the notes flagged as favourite, each as often as
        it is stored, in store order. */
    function GetFavoriteNotes(): (r: seq<Note>)
      reads this
      ensures IsSubsequence(r, notes)
      ensures forall n :: multiset(r)[n] == if n.favorite then multiset(notes)[n] else 0
    {
      FilterSelects(IsFavorite, notes);
      Favorites(notes)
    }
  }
}
