/** js/notes.js: the `NotesManager` holding the user's notes. */
module Notes {
  import opened Wrappers
  import opened Sequences
  import opened Sorting
  import opened Strings
  import opened Dates
  import L = Listeners

  /** A note; `createdAt` and `updatedAt` are timestamps in milliseconds. */
  datatype Note = Note(
    id: string,
    title: string,
    category: string,
    content: string,
    tags: seq<string>,
    createdAt: int,
    updatedAt: int)

  /** The fields a caller passes to `createNote` or `updateNote`; `None` is a field left out. */
  datatype NoteData = NoteData(
    title: Option<string>,
    category: Option<string>,
    content: Option<string>,
    tags: Option<seq<string>>)

  /** The categories the manager offers. */
  const Categories: seq<string> := ["Research", "Meeting", "Personal", "Project", "Idea"]

  /** No two notes share an id. */
  predicate UniqueIds(notes: seq<Note>)
  {
    forall i, j :: 0 <= i < j < |notes| ==> notes[i].id != notes[j].id
  }

  /** `findIndex(note => note.id === id)`. */
  function IndexOf(notes: seq<Note>, id: string): (r: Option<nat>)
    ensures r.Some? ==> r.value < |notes| && notes[r.value].id == id
    ensures r.Some? ==> forall j :: 0 <= j < r.value ==> notes[j].id != id
    ensures r.None? <==> forall j :: 0 <= j < |notes| ==> notes[j].id != id
  {
    FirstIndex(notes, (n: Note) => n.id == id)
  }

  /** The note `createNote` builds: absent or empty text fields take their defaults. */
  function NewNote(data: NoteData, id: string, now: int): (n: Note)
    ensures n.id == id && n.createdAt == now && n.updatedAt == now
    ensures n.title != "" && n.category != ""
    ensures data.title.Some? && data.title.value != "" ==> n.title == data.title.value
    ensures data.category.Some? && data.category.value != "" ==> n.category == data.category.value
    ensures data.content.Some? ==> n.content == data.content.value
    ensures data.tags.Some? ==> n.tags == data.tags.value
    ensures data.title.None? || data.title == Some("") ==> n.title == "Untitled Note"
    ensures data.category.None? || data.category == Some("") ==> n.category == "Personal"
    ensures data.content.None? ==> n.content == ""
    ensures data.tags.None? ==> n.tags == []
  {
    Note(
      id,
      Or(data.title, "Untitled Note"),
      Or(data.category, "Personal"),
      Or(data.content, ""),
      data.tags.GetOr([]),
      now,
      now)
  }

  /**
   * `{...note, ...noteData, updatedAt}`: every field the caller passed replaces the stored one
   * (an empty string included), the rest are kept, and the note is stamped with `now`.
   */
  function Merge(n: Note, patch: NoteData, now: int): (m: Note)
    ensures m.id == n.id && m.createdAt == n.createdAt && m.updatedAt == now
    ensures m.title == (if patch.title.Some? then patch.title.value else n.title)
    ensures m.category == (if patch.category.Some? then patch.category.value else n.category)
    ensures m.content == (if patch.content.Some? then patch.content.value else n.content)
    ensures m.tags == (if patch.tags.Some? then patch.tags.value else n.tags)
  {
    n.(title := patch.title.GetOr(n.title),
       category := patch.category.GetOr(n.category),
       content := patch.content.GetOr(n.content),
       tags := patch.tags.GetOr(n.tags),
       updatedAt := now)
  }

  /** Applying the same patch twice at the same moment is applying it once. */
  lemma MergeIdempotent(n: Note, patch: NoteData, now: int)
    ensures Merge(Merge(n, patch, now), patch, now) == Merge(n, patch, now)
  {
  }

  /** `notes.filter(note => note.id !== id)`. */
  function WithoutId(notes: seq<Note>, id: string): (r: seq<Note>)
    ensures forall n :: n in r <==> n in notes && n.id != id
    ensures forall n :: multiset(r)[n] == if n.id != id then multiset(notes)[n] else 0
    ensures |r| == |notes| <==> IndexOf(notes, id).None?
    ensures IndexOf(notes, id).None? ==> r == notes
    ensures Subsequence(r, notes)
  {
    var p := (n: Note) => n.id != id;
    FilterKeepsAll(notes, p);
    Filter(notes, p)
  }

  /** A query that is missing or all whitespace (`!query || query.trim() === ''`). */
  predicate IsBlank(query: string)
  {
    Trim(query) == ""
  }

  /** A note matches a lower-cased search term in its title, content, a tag or its category. */
  predicate NoteMatches(n: Note, term: string)
  {
    Contains(Lower(n.title), term)
    || Contains(Lower(n.content), term)
    || (exists t :: t in n.tags && Contains(Lower(t), term))
    || Contains(Lower(n.category), term)
  }

  /** A note carries a tag whose lower-case form is `lowered`. */
  predicate HasTag(n: Note, lowered: string)
  {
    exists t :: t in n.tags && Lower(t) == lowered
  }

  /** The sort orders `sortNotes` offers. */
  datatype NoteField = UpdatedAt | CreatedAt | Title | Category

  function ByUpdatedAt(n: Note): SortKey { Num(n.updatedAt) }
  function ByCreatedAt(n: Note): SortKey { Num(n.createdAt) }
  function ByTitle(n: Note): SortKey { Text(n.title) }
  function ByCategory(n: Note): SortKey { Text(n.category) }

  /** Timestamps compare as numbers, titles and categories as strings. */
  function NoteKey(field: NoteField): Note -> SortKey
  {
    match field
    case UpdatedAt => ByUpdatedAt
    case CreatedAt => ByCreatedAt
    case Title => ByTitle
    case Category => ByCategory
  }

  /** The notes whose key under `field` is `k`. */
  function SameKey(field: NoteField, k: SortKey): Note -> bool
  {
    (n: Note) => NoteKey(field)(n) == k
  }

  function TagKey(tag: string): SortKey { Text(tag) }

  /** The text of the sample notes. */
  const TrendsContent: string :=
    "Exploration of emerging frameworks, tools, and methodologies that will shape frontend development in the coming year. Key trends include:\n\n- **AI-assisted coding** becoming mainstream\n- Increased adoption of **WebAssembly**\n- **Edge computing** for web applications\n- **Micro-frontends** architecture gaining popularity\n- **Server components** in React and other frameworks"

  const StrategyContent: string :=
    "Notes from the leadership meeting discussing marketing initiatives, budget allocations, and campaign timelines.\n\n# Key Decisions\n\n1. Increase social media budget by 15%\n2. Launch new product line in May\n3. Redesign website homepage\n4. Partner with influencers in our industry\n\n# Action Items\n\n- Sarah to prepare social media calendar\n- John to finalize product launch materials\n- Team to review website mockups by Friday"

  const ReadingListContent: string :=
    "Curated selection of novels for monthly book club meetings with ratings and discussion points for each title.\n\n## January\n*The Midnight Library* by Matt Haig\n\n## February\n*Project Hail Mary* by Andy Weir\n\n## March\n*Klara and the Sun* by Kazuo Ishiguro\n\n## April\n*The Lincoln Highway* by Amor Towles"

  const DesignSystemContent: string :=
    "Complete UI documentation for the company's flagship mobile application covering colors, typography and components.\n\n### Color Palette\n- Primary: #3B82F6\n- Secondary: #8B5CF6\n- Accent: #10B981\n- Background: #F9FAFB\n- Text: #1F2937\n\n### Typography\n- Headings: Inter Bold\n- Body: Inter Regular\n- Buttons: Inter Medium"

  /**
   * The four notes a first start shows.
   * The source gives these times in UTC (a trailing `Z`); they are written here as wall-clock
   * times, so they are exact only when the fixed UTC offset is 0.
   */
  function SampleNotes(): (notes: seq<Note>)
    ensures |notes| == 4 && UniqueIds(notes)
  {
    [
      Note("note1", "Web Development Trends 2024", "Research",
        TrendsContent,
        ["Tech", "Trends"], Timestamp(2023, 10, 14, 10, 30), Timestamp(2023, 10, 14, 14, 45)),
      Note("note2", "Q2 Marketing Strategy", "Meeting",
        StrategyContent,
        ["Marketing"], Timestamp(2023, 10, 12, 9, 0), Timestamp(2023, 10, 13, 11, 20)),
      Note("note3", "Book Club Reading List", "Personal",
        ReadingListContent,
        ["Reading"], Timestamp(2023, 10, 9, 16, 15), Timestamp(2023, 10, 9, 16, 15)),
      Note("note4", "Mobile App UI Design System", "Project",
        DesignSystemContent,
        ["Design", "UI"], Timestamp(2023, 10, 11, 13, 45), Timestamp(2023, 10, 11, 13, 45))
    ]
  }

  class NotesManager {
    /** The notes, newest first as created. */
    var notes: seq<Note>
    const categories: seq<string>
    var listeners: L.ListenerMap

    constructor()
      ensures notes == [] && categories == Categories && listeners == map[]
    {
      notes := [];
      categories := Categories;
      listeners := map[];
    }

    /** `loadNotes()`: the stored notes, or the samples when storage holds none. */
    method LoadNotes(stored: seq<Note>)
      modifies this
      ensures notes == if stored == [] then SampleNotes() else stored
      ensures listeners == old(listeners)
    {
      notes := stored;
      if |notes| == 0 {
        notes := SampleNotes();
      }
    }

    /** `getAllNotes()`: a copy of the list. */
    function GetAllNotes(): (r: seq<Note>)
      reads this
      ensures r == notes
    {
      notes
    }

    /** `getNoteById(id)`: the first note with that id, or none. */
    function GetNoteById(id: string): (r: Option<Note>)
      reads this
      ensures r.Some? ==> r.value in notes && r.value.id == id
      ensures r.None? <==> forall n :: n in notes ==> n.id != id
      ensures r.Some? ==> exists i :: (0 <= i < |notes| && notes[i] == r.value
        && forall j :: 0 <= j < i ==> notes[j].id != id)
    {
      match IndexOf(notes, id)
      case None => None
      case Some(i) => Some(notes[i])
    }

    /**
     * `createNote(noteData)` with the generated id and the current time passed in: the new
     * note goes to the front, and can be found by its id at once.
     */
    method CreateNote(data: NoteData, id: string, now: int) returns (note: Note)
      modifies this
      ensures note == NewNote(data, id, now)
      ensures notes == [note] + old(notes)
      ensures GetNoteById(id) == Some(note)
      ensures old(UniqueIds(notes)) && old(GetNoteById(id)).None? ==> UniqueIds(notes)
      ensures listeners == old(listeners)
    {
      note := NewNote(data, id, now);
      notes := [note] + notes;
      assert notes[0] == note;
    }

    /**
     * `updateNote(id, noteData)` at time `now`: the first note with that id gets the patch;
     * with no such note nothing changes and the result is none.
     */
    method UpdateNote(id: string, patch: NoteData, now: int) returns (r: Option<Note>)
      modifies this
      ensures old(IndexOf(notes, id)).None? ==> r.None? && notes == old(notes)
      ensures old(IndexOf(notes, id)).Some? ==>
        var i := old(IndexOf(notes, id)).value;
        r == Some(Merge(old(notes)[i], patch, now)) && notes == old(notes)[i := r.value]
      ensures r.Some? ==> GetNoteById(id) == r
      ensures old(UniqueIds(notes)) ==> UniqueIds(notes)
      ensures listeners == old(listeners)
    {
      var index := IndexOf(notes, id);
      if index.None? {
        return None;
      }
      var updated := Merge(notes[index.value], patch, now);
      var before := notes;
      notes := notes[index.value := updated];
      FirstIndexSameAnswers(before, notes, (n: Note) => n.id == id, (n: Note) => n.id == id);
      r := Some(updated);
    }

    /** `deleteNote(id)`: drops every note with that id; true exactly when there was one. */
    method DeleteNote(id: string) returns (deleted: bool)
      modifies this
      ensures notes == WithoutId(old(notes), id)
      ensures deleted <==> old(GetNoteById(id)).Some?
      ensures GetNoteById(id).None?
      ensures listeners == old(listeners)
    {
      var initialLength := |notes|;
      notes := WithoutId(notes, id);
      deleted := |notes| != initialLength;
    }

    /**
     * `searchNotes(query)`: everything for a blank query; otherwise, in their order, the notes
     * whose title, content, a tag or category contains the lower-cased query.
     */
    function SearchNotes(query: string): (r: seq<Note>)
      reads this
      ensures IsBlank(query) ==> r == notes
      ensures !IsBlank(query) ==> forall n :: n in r <==> n in notes && NoteMatches(n, Lower(query))
      ensures !IsBlank(query) ==> Subsequence(r, notes)
      ensures !IsBlank(query) ==> forall n :: multiset(r)[n] == if NoteMatches(n, Lower(query)) then multiset(notes)[n] else 0
    {
      if IsBlank(query) then notes
      else
        var term := Lower(query);
        Filter(notes, (n: Note) => NoteMatches(n, term))
    }

    /** `filterByCategory(category)`: everything for `''` or `'All'`, otherwise the notes of exactly that category. */
    function FilterByCategory(category: string): (r: seq<Note>)
      reads this
      ensures category == "" || category == "All" ==> r == notes
      ensures category != "" && category != "All" ==> forall n :: n in r <==> n in notes && n.category == category
      ensures category != "" && category != "All" ==> Subsequence(r, notes)
      ensures category != "" && category != "All" ==> forall n :: multiset(r)[n] == if n.category == category then multiset(notes)[n] else 0
    {
      if category == "" || category == "All" then notes
      else Filter(notes, (n: Note) => n.category == category)
    }

    /** `filterByTag(tag)`: everything for `''`, otherwise the notes carrying the tag in any case. */
    function FilterByTag(tag: string): (r: seq<Note>)
      reads this
      ensures tag == "" ==> r == notes
      ensures tag != "" ==> forall n :: n in r <==> n in notes && HasTag(n, Lower(tag))
      ensures tag != "" ==> Subsequence(r, notes)
      ensures tag != "" ==> forall n :: multiset(r)[n] == if HasTag(n, Lower(tag)) then multiset(notes)[n] else 0
    {
      if tag == "" then notes
      else
        var lowered := Lower(tag);
        Filter(notes, (n: Note) => HasTag(n, lowered))
    }

    /**
     * `getAllTags()`: collects the tags of every note into a set, in first-seen order, and sorts
     * them by code point; the result lists each tag in use exactly once, in order.
     */
    method GetAllTags() returns (tags: seq<string>)
      ensures forall t :: t in tags <==> exists i :: 0 <= i < |notes| && t in notes[i].tags
      ensures Distinct(tags)
      ensures Sorted(tags, TagKey, true)
    {
      var seen: seq<string> := [];
      var i := 0;
      while i < |notes|
        invariant 0 <= i <= |notes|
        invariant forall t :: t in seen <==> exists k :: 0 <= k < i && t in notes[k].tags
        invariant Distinct(seen)
      {
        var noteTags := notes[i].tags;
        var j := 0;
        while j < |noteTags|
          invariant 0 <= j <= |noteTags|
          invariant forall t :: t in seen <==> (exists k :: 0 <= k < i && t in notes[k].tags) || t in noteTags[..j]
          invariant Distinct(seen)
        {
          var tag := noteTags[j];
          if tag !in seen {
            seen := seen + [tag];
          }
          assert noteTags[..j + 1] == noteTags[..j] + [tag];
          j := j + 1;
        }
        assert noteTags[..j] == noteTags;
        i := i + 1;
      }
      tags := Sort(seen, TagKey, true);
      SortSorted(seen, TagKey, true);
      PermutationDistinct(seen, tags);
      forall t ensures t in tags <==> t in seen {
        assert t in tags <==> t in multiset(tags);
        assert t in seen <==> t in multiset(seen);
      }
    }

    /**
     * `sortNotes(sortBy, ascending)`, by default newest change first: a copy ordered by the
     * field, notes with equal keys keeping their relative order, the list itself untouched.
     */
    function SortNotes(sortBy: NoteField := UpdatedAt, ascending: bool := false): (r: seq<Note>)
      reads this
      ensures multiset(r) == multiset(notes)
      ensures Sorted(r, NoteKey(sortBy), ascending)
      ensures forall k :: Filter(r, SameKey(sortBy, k)) == Filter(notes, SameKey(sortBy, k))
    {
      var key := NoteKey(sortBy);
      SortSorted(notes, key, ascending);
      forall k ensures Filter(Sort(notes, key, ascending), SameKey(sortBy, k)) == Filter(notes, SameKey(sortBy, k)) {
        SortStable(notes, key, ascending, SameKey(sortBy, k), k);
      }
      Sort(notes, key, ascending)
    }

    /** `on(event, callback)`. */
    method On(event: string, callback: L.HandlerId)
      modifies this
      ensures listeners == L.On(old(listeners), event, callback)
      ensures notes == old(notes)
    {
      listeners := L.On(listeners, event, callback);
    }

    /** `off(event, callback)`. */
    method Off(event: string, callback: L.HandlerId)
      modifies this
      ensures listeners == L.Off(old(listeners), event, callback)
      ensures notes == old(notes)
    {
      listeners := L.Off(listeners, event, callback);
    }

    /** `trigger(event, data)`: the callbacks it calls with the data, in order. */
    function Trigger(event: string): (hs: seq<L.HandlerId>)
      reads this
      ensures event !in listeners ==> hs == []
      ensures event in listeners ==> hs == listeners[event]
    {
      L.Recipients(listeners, event)
    }
  }

  /** Lower-casing keeps whitespace and keeps everything else out of it. */
  lemma LowerKeepsBlank(query: string)
    ensures IsBlank(Lower(query)) <==> IsBlank(query)
  {
    TrimEmpty(query);
    TrimEmpty(Lower(query));
  }

  /** Searching ignores the case of the query. */
  lemma SearchIgnoresCase(m: NotesManager, query: string)
    ensures m.SearchNotes(Lower(query)) == m.SearchNotes(query)
  {
    LowerKeepsBlank(query);
    LowerIdempotent(query);
  }

  /** Filtering by tag ignores the case of the tag asked for. */
  lemma TagFilterIgnoresCase(m: NotesManager, tag: string)
    ensures m.FilterByTag(Lower(tag)) == m.FilterByTag(tag)
  {
    LowerIdempotent(tag);
  }

  /** Sorting an already sorted copy again changes nothing. */
  lemma SortNotesSettles(notes: seq<Note>, sortBy: NoteField, ascending: bool)
    ensures Sort(Sort(notes, NoteKey(sortBy), ascending), NoteKey(sortBy), ascending) == Sort(notes, NoteKey(sortBy), ascending)
  {
    SortSorted(notes, NoteKey(sortBy), ascending);
    SortKeepsSorted(Sort(notes, NoteKey(sortBy), ascending), NoteKey(sortBy), ascending);
  }
}
