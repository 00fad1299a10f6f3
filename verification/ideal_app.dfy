/**
 * The improved tracker (`1ideal.jsx`): entries carry an id and are deleted by
 * it; a change of the list or of the search term re-runs the filter and puts
 * the view back on page 1; Previous/Next move between pages; the export has
 * the header `Foreign,English,Pronunciation`.
 */
module IdealApp {
  import opened Text
  import opened Seqs
  import opened WordList

  /** A stored entry: the draft fields plus the id stamped on them when added. */
  datatype Entry = Entry(word: Word, id: int)

  function EntryEnglish(e: Entry): string
  {
    e.word.english
  }

  /** The filter for `word.id !== id`. */
  function IdIsNot(id: int): Entry -> bool
  {
    (e: Entry) => e.id != id
  }

  /**
   * `words.filter(word => word.id !== id)`: every entry with that id goes,
   * every other entry stays in its order and as often as it occurred, and an
   * id no entry has changes nothing.
   */
  function WithoutId(words: seq<Entry>, id: int): (r: seq<Entry>)
    ensures forall i :: 0 <= i < |r| ==> r[i] in words && r[i].id != id
    ensures forall i :: 0 <= i < |words| && words[i].id != id ==> words[i] in r
    ensures IsSubsequence(r, words)
    ensures (forall i :: 0 <= i < |words| ==> words[i].id != id) ==> r == words
    ensures forall x :: multiset(r)[x] == if x.id != id then multiset(words)[x] else 0
  {
    var keep := IdIsNot(id);
    assert forall x :: keep(x) == (x.id != id);
    FilterCount(words, keep);
    FilterIsSubsequence(words, keep);
    FilterKeepsAll(words, keep);
    Filter(words, keep)
  }

  /** Deleting an id twice is deleting it once. */
  lemma DeleteIdempotent(words: seq<Entry>, id: int)
    ensures WithoutId(WithoutId(words, id), id) == WithoutId(words, id)
  {
  }

  /**
   * Deleting from a card passes the id of the entry the card shows, so that
   * entry is what leaves the list, and only entries sharing its id go with it.
   */
  lemma DeleteShownEntry(words: seq<Entry>, term: string, page: int, k: int)
    requires page >= 1
    requires 0 <= k < |PageSlice(Search(words, EntryEnglish, term), page)|
    ensures PageSlice(Search(words, EntryEnglish, term), page)[k] in words
    ensures PageSlice(Search(words, EntryEnglish, term), page)[k] !in
      WithoutId(words, PageSlice(Search(words, EntryEnglish, term), page)[k].id)
    ensures forall i :: 0 <= i < |words| && words[i].id != PageSlice(Search(words, EntryEnglish, term), page)[k].id ==>
      words[i] in WithoutId(words, PageSlice(Search(words, EntryEnglish, term), page)[k].id)
  {
    var view := Search(words, EntryEnglish, term);
    var shown := PageSlice(view, page)[k];
    PageEntryAt(view, page, k);
    assert shown in words;
    var rest := WithoutId(words, shown.id);
    assert shown !in rest;
  }

  /** The export's column names; the header line is `Foreign,English,Pronunciation`. */
  const HeaderWord := Word("Foreign", "English", "Pronunciation")

  lemma HeaderText()
    ensures Line(HeaderWord) == "Foreign,English,Pronunciation"
  {
  }

  /** The header's own fields hold no comma and no newline. */
  lemma HeaderClean()
    ensures Clean(HeaderWord)
  {
  }

  function WordsOf(entries: seq<Entry>): (r: seq<Word>)
    ensures |r| == |entries|
  {
    seq(|entries|, i requires 0 <= i < |entries| => entries[i].word)
  }

  /** The text `exportToCSV` downloads, without the `data:` prefix. */
  function ExportCsv(entries: seq<Entry>): (r: string)
    ensures Line(HeaderWord) + "\n" <= r
    ensures entries == [] ==> r == Line(HeaderWord) + "\n"
  {
    Line(HeaderWord) + "\n" + Join(Lines(WordsOf(entries)), "\n")
  }

  /** The header ends in a newline even when no line follows it. */
  lemma ExportCsvIsJoin(entries: seq<Entry>)
    ensures ExportCsv(entries) ==
      Join([Line(HeaderWord)] + (if entries == [] then [""] else Lines(WordsOf(entries))), "\n")
  {
    var lines := [Line(HeaderWord)] + (if entries == [] then [""] else Lines(WordsOf(entries)));
    assert lines[1..] == (if entries == [] then [""] else Lines(WordsOf(entries)));
  }

  /**
   * Read back naively, the export is the header line followed by one line
   * per entry in list order; an empty list leaves one empty line after the
   * header, because the header always ends in a newline.
   */
  lemma ExportCsvParses(entries: seq<Entry>)
    requires forall i :: 0 <= i < |entries| ==> Clean(entries[i].word)
    ensures Split(ExportCsv(entries), '\n') ==
      [Line(HeaderWord)] + (if entries == [] then [""] else Lines(WordsOf(entries)))
    ensures ParseCsv(ExportCsv(entries)) ==
      [FieldsOf(HeaderWord)] + (if entries == [] then [[""]] else FieldRows(WordsOf(entries)))
  {
    HeaderClean();
    LineParses(HeaderWord);
    if entries == [] {
      assert ExportCsv(entries) == Line(HeaderWord) + ['\n'] + "";
      SplitAfter(Line(HeaderWord), '\n', "");
    } else {
      ExportCsvIsJoin(entries);
      HeadedLinesParse(HeaderWord, WordsOf(entries));
    }
  }

  /** The page state and the list (`App`). */
  class App {
    var words: seq<Entry>
    var filteredWords: seq<Entry>
    var isAddModalOpen: bool
    var currentPage: int
    var searchTerm: string

    /**
     * The filtered view always follows the list and the term, the page is
     * at least 1, and the page shown is never empty while the view is not.
     */
    ghost predicate Valid()
      reads this
    {
      filteredWords == Search(words, EntryEnglish, searchTerm) &&
      currentPage >= 1 &&
      (currentPage == 1 || (currentPage - 1) * PageSize < |filteredWords|)
    }

    constructor ()
      ensures Valid()
      ensures words == [] && filteredWords == [] && searchTerm == ""
      ensures currentPage == 1 && !isAddModalOpen
    {
      words, filteredWords := [], [];
      isAddModalOpen, currentPage, searchTerm := false, 1, "";
    }

    /** The effect on `[words, searchTerm]`: refilter and go back to page 1. */
    method RefreshView()
      modifies this`filteredWords, this`currentPage
      ensures Valid()
      ensures filteredWords == Search(words, EntryEnglish, searchTerm) && currentPage == 1
    {
      filteredWords := Search(words, EntryEnglish, searchTerm);
      currentPage := 1;
    }

    /** `addWord`: append the entry, with no check of its fields, then the effect runs. */
    method AddWord(newWord: Entry)
      requires Valid()
      modifies this
      ensures Valid()
      ensures words == old(words) + [newWord]
      ensures filteredWords ==
        old(filteredWords) + (if Matches(newWord.word.english, searchTerm) then [newWord] else [])
      ensures currentPage == 1
      ensures searchTerm == old(searchTerm) && isAddModalOpen == old(isAddModalOpen)
    {
      SearchAppend(words, newWord, EntryEnglish, searchTerm);
      words := words + [newWord];
      RefreshView();
    }

    /** `deleteWord(id)`: the filter always yields a new list, so the effect runs. */
    method DeleteWord(id: int)
      requires Valid()
      modifies this
      ensures Valid()
      ensures words == WithoutId(old(words), id)
      ensures currentPage == 1
      ensures searchTerm == old(searchTerm) && isAddModalOpen == old(isAddModalOpen)
    {
      words := WithoutId(words, id);
      RefreshView();
    }

    /**
     * `handleSearch(term)`: React ignores a state update to an identical
     * string, so the effect (and the return to page 1) only follows a
     * different term.
     */
    method HandleSearch(term: string)
      requires Valid()
      modifies this
      ensures Valid()
      ensures searchTerm == term && words == old(words) && isAddModalOpen == old(isAddModalOpen)
      ensures currentPage == if term == old(searchTerm) then old(currentPage) else 1
    {
      if term != searchTerm {
        searchTerm := term;
        RefreshView();
      }
    }

    /** `paginatedWords`: the slice of the filtered view the grid shows. */
    function PaginatedWords(): (r: seq<Entry>)
      reads this
      requires Valid()
      ensures |r| <= PageSize
      ensures forall i :: 0 <= i < |r| ==> r[i] in words && Matches(r[i].word.english, searchTerm)
      ensures filteredWords != [] ==> r != []
    {
      PageOfSearch(words, EntryEnglish, searchTerm, currentPage);
      PageNonEmptyIff(filteredWords, currentPage);
      PageSlice(filteredWords, currentPage)
    }

    /** Previous is disabled exactly when pressing it would not move the page. */
    predicate PreviousDisabled()
      reads this
      ensures currentPage >= 1 ==>
        (PreviousDisabled() <==> (if currentPage - 1 > 1 then currentPage - 1 else 1) == currentPage)
    {
      currentPage == 1
    }

    /** Next is disabled exactly when the page after the current one would be empty. */
    predicate NextDisabled()
      reads this
      ensures currentPage >= 1 ==> (NextDisabled() <==> PageSlice(filteredWords, currentPage + 1) == [])
    {
      currentPage * PageSize >= |filteredWords|
    }

    /** Previous: `setCurrentPage(prev => Math.max(prev - 1, 1))`. */
    method Previous()
      requires Valid()
      modifies this`currentPage
      ensures Valid()
      ensures old(PreviousDisabled()) ==> currentPage == 1
      ensures !old(PreviousDisabled()) ==> currentPage == old(currentPage) - 1
    {
      currentPage := if currentPage - 1 > 1 then currentPage - 1 else 1;
    }

    /**
     * Next: `setCurrentPage(prev => prev + 1)`, with the button disabled once
     * the current page reaches the end of the view; it never lands on an
     * empty page.
     */
    method Next()
      requires Valid()
      modifies this`currentPage
      ensures Valid()
      ensures old(NextDisabled()) ==> currentPage == old(currentPage)
      ensures !old(NextDisabled()) ==> currentPage == old(currentPage) + 1 && PaginatedWords() != []
    {
      if !NextDisabled() {
        currentPage := currentPage + 1;
      }
    }

    /** The "Add Word" button. */
    method OpenAddModal()
      modifies this`isAddModalOpen
      ensures isAddModalOpen
    {
      isAddModalOpen := true;
    }

    /** `onClose`, also the dialog's `onOpenChange`. */
    method CloseAddModal()
      modifies this`isAddModalOpen
      ensures !isAddModalOpen
    {
      isAddModalOpen := false;
    }
  }

  /** The add dialog's own state: the draft (`AddWordModal`). */
  class AddWordModal {
    var newWord: Word

    constructor ()
      ensures newWord == EmptyWord
    {
      newWord := EmptyWord;
    }

    /** Typing into one of the three inputs. */
    method Edit(field: Field, value: string)
      modifies this
      ensures newWord == WithField(old(newWord), field, value)
    {
      newWord := WithField(newWord, field, value);
    }

    /**
     * `handleAdd`: hand the draft with the id `now` (the clock reading) to
     * `addWord`, reset the draft and close the dialog.
     */
    method HandleAdd(app: App, now: int)
      requires app.Valid()
      modifies this, app
      ensures app.Valid()
      ensures app.words == old(app.words) + [Entry(old(newWord), now)]
      ensures newWord == EmptyWord && !app.isAddModalOpen
      ensures app.searchTerm == old(app.searchTerm) && app.currentPage == 1
    {
      app.AddWord(Entry(newWord, now));
      newWord := EmptyWord;
      app.CloseAddModal();
    }
  }
}
