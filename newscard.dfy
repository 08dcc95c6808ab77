/**
 * The news card (src/components/NewsCard.tsx): the estimated reading time
 * of a summary, and the bookmark toggle that keeps the list of bookmarked
 * article ids in the browser's storage.
 */
module NewsCard {
  import opened Wrappers
  import opened Text
  import opened Lists

  // ---------------------------------------------------------------------
  // Reading time
  // ---------------------------------------------------------------------

  const WordsPerMinute := 200

  /** `text.trim().split(/\s+/).length`: a blank text still splits into
      one (empty) piece. */
  function WordCount(text: string): (n: nat)
    ensures n >= 1
  {
    SplitPieceCount(Trim(text))
  }

  /** The piece count is the number of words, and 1 for a blank text. */
  lemma WordCountIsWords(text: string)
    ensures Trim(text) != [] ==> WordCount(text) == |Words(Trim(text))|
    ensures Trim(text) == [] ==> WordCount(text) == 1
  {
    if Trim(text) != [] {
      SplitPieceCountIsWords(Trim(text));
    }
  }

  /** `calculateReadingTime`: the number of whole minutes needed to read
      the words at 200 a minute, rounded up, and 1 for an empty text. */
  function ReadingTime(text: string): (minutes: nat)
    ensures minutes >= 1
    ensures text == [] ==> minutes == 1
    ensures text != [] ==> WordCount(text) <= minutes * WordsPerMinute
    ensures text != [] && minutes > 1 ==> (minutes - 1) * WordsPerMinute < WordCount(text)
  {
    if text == [] then 1
    else Max(1, (WordCount(text) + WordsPerMinute - 1) / WordsPerMinute)
  }

  /** A text of at most 200 words reads in one minute; each further 200
      words add one. */
  lemma ReadingTimeOfWords(text: string)
    requires Trim(text) != []
    ensures ReadingTime(text) == (|Words(Trim(text))| + WordsPerMinute - 1) / WordsPerMinute
  {
    WordCountIsWords(text);
  }

  /** A blank but non-empty summary counts as one word, so it also reads
      in one minute. */
  lemma ReadingTimeOfBlank(text: string)
    requires Trim(text) == []
    ensures ReadingTime(text) == 1
  {
    WordCountIsWords(text);
  }

  // ---------------------------------------------------------------------
  // Bookmarks
  // ---------------------------------------------------------------------

  /** What the storage entry "ai-nexus-bookmarks" holds: nothing (read as
      "[]"), a JSON list of ids, or text that does not parse as one. */
  datatype Stored = Missing | Ids(ids: seq<string>) | Malformed

  /** The parsed list, or None when `JSON.parse` throws. */
  function StoredIds(s: Stored): (r: Option<seq<string>>)
    ensures s.Missing? ==> r == Some([])
    ensures r.None? <==> s.Malformed?
  {
    match s
    case Missing => Some([])
    case Ids(ids) => Some(ids)
    case Malformed => None
  }

  /** `isBookmarked`: the id is in the stored list; false when the entry
      does not parse. */
  function IsBookmarked(s: Stored, id: string): (r: bool)
    ensures s.Malformed? || s.Missing? ==> !r
    ensures s.Ids? ==> (r <==> exists i :: 0 <= i < |s.ids| && s.ids[i] == id)
  {
    match StoredIds(s)
    case None => false
    case Some(ids) => id in ids
  }

  /** The list a toggle stores: without every occurrence of `id` when the
      card shows it as bookmarked, with `id` appended otherwise. */
  function Toggled(ids: seq<string>, id: string, bookmarked: bool): (r: seq<string>)
    ensures bookmarked ==> id !in r
    ensures bookmarked ==> forall x :: x != id ==> (x in r <==> x in ids)
    ensures !bookmarked ==> r == ids + [id]
  {
    if bookmarked then Filter(ids, (b: string) => b != id) else ids + [id]
  }

  /** Removing keeps the other ids in their original order: removing from
      a concatenation is removing from each part. */
  lemma ToggledKeepsOrder(ids: seq<string>, more: seq<string>, id: string)
    ensures Toggled(ids + more, id, true) == Toggled(ids, id, true) + Toggled(more, id, true)
  {
    FilterAppend(ids, more, (b: string) => b != id);
  }

  /** Removing an id nobody stored changes nothing. */
  lemma {:induction false} ToggledAbsent(ids: seq<string>, id: string)
    requires id !in ids
    ensures Toggled(ids, id, true) == ids
    decreases |ids|
  {
    if ids != [] {
      ToggledAbsent(ids[1..], id);
      assert ids == [ids[0]] + ids[1..];
    }
  }

  /** Bookmarking an article and then removing the bookmark restores the
      stored list. */
  lemma ToggleRoundTrip(ids: seq<string>, id: string)
    requires id !in ids
    ensures Toggled(Toggled(ids, id, false), id, true) == ids
  {
    ToggledKeepsOrder(ids, [id], id);
    ToggledAbsent(ids, id);
    assert Toggled([id], id, true) == [];
  }

  /** The bookmark button of one card: the id it shows, the storage entry
      it reads and writes, and the `bookmarked` flag it displays. */
  class BookmarkButton {
    const id: string
    var stored: Stored
    var bookmarked: bool

    /** The flag agrees with the storage. */
    predicate Synced()
      reads this
    {
      bookmarked == IsBookmarked(stored, id)
    }

    /** The card mounts and its effect reads the flag from the storage. */
    constructor (id: string, stored: Stored)
      ensures this.id == id && this.stored == stored
      ensures bookmarked == IsBookmarked(stored, id)
      ensures Synced()
    {
      this.id := id;
      this.stored := stored;
      bookmarked := IsBookmarked(stored, id);
    }

    /** `toggleBookmark`: when the entry parses and writing it succeeds,
        the toggled list is stored and the flag flips; when parsing or
        writing throws, nothing changes. */
    method Toggle(writeSucceeds: bool)
      modifies this
      ensures StoredIds(old(stored)).None? || !writeSucceeds ==>
                stored == old(stored) && bookmarked == old(bookmarked)
      ensures StoredIds(old(stored)).Some? && writeSucceeds ==>
                stored == Ids(Toggled(StoredIds(old(stored)).value, id, old(bookmarked)))
                && bookmarked == !old(bookmarked)
      ensures old(Synced()) ==> Synced()
    {
      var parsed := StoredIds(stored);
      if parsed.Some? && writeSucceeds {
        stored := Ids(Toggled(parsed.value, id, bookmarked));
        bookmarked := !bookmarked;
      }
    }
  }
}
