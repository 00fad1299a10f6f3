/**
 * The first variant (`1a.jsx`): the draft lives in `App`, adding checks that
 * the foreign word and the translation are non-empty, cards delete by their
 * position on the page, the page is not reset by a search, and the export
 * has no header line.
 */
module AppA {
  import opened Text
  import opened Seqs
  import opened WordList

  /** The text `exportToCSV` downloads, without the `data:` prefix: one line per word. */
  function ExportCsv(words: seq<Word>): (r: string)
    ensures words == [] ==> r == ""
    ensures words != [] ==> Line(words[0]) <= r
  {
    Join(Lines(words), "\n")
  }

  /**
   * Read back naively, the export is one field triple per word in list
   * order; an empty list exports the empty string, which reads as one empty
   * line.
   */
  lemma ExportCsvParses(words: seq<Word>)
    requires forall i :: 0 <= i < |words| ==> Clean(words[i])
    ensures words == [] ==> ExportCsv(words) == "" && ParseCsv(ExportCsv(words)) == [[""]]
    ensures words != [] ==> Split(ExportCsv(words), '\n') == Lines(words)
    ensures words != [] ==> ParseCsv(ExportCsv(words)) == FieldRows(words)
  {
    LinesParse(words);
    if words != [] {
      ParseJoined(Lines(words));
    }
  }

  class App {
    var words: seq<Word>
    var isModalOpen: bool
    var newWord: Word
    var currentPage: int
    var searchQuery: string

    /** Every page number the buttons pass is at least 1. */
    ghost predicate Valid()
      reads this
    {
      currentPage >= 1
    }

    constructor ()
      ensures Valid()
      ensures words == [] && !isModalOpen && newWord == EmptyWord
      ensures currentPage == 1 && searchQuery == ""
    {
      words, isModalOpen, newWord := [], false, EmptyWord;
      currentPage, searchQuery := 1, "";
    }

    /**
     * `addWord`: only a draft with a non-empty foreign word and translation
     * is appended, after which the dialog closes and the draft is cleared;
     * otherwise nothing changes.
     */
    method AddWord()
      requires Valid()
      modifies this
      ensures Valid()
      ensures old(newWord.foreign != "" && newWord.english != "") ==>
        words == old(words) + [old(newWord)] && !isModalOpen && newWord == EmptyWord
      ensures !old(newWord.foreign != "" && newWord.english != "") ==>
        words == old(words) && isModalOpen == old(isModalOpen) && newWord == old(newWord)
      ensures currentPage == old(currentPage) && searchQuery == old(searchQuery)
    {
      if newWord.foreign != "" && newWord.english != "" {
        words := words + [newWord];
        isModalOpen := false;
        newWord := EmptyWord;
      }
    }

    /** `deleteWord(index)`: remove that position of the full list, if there is one. */
    method DeleteWord(index: int)
      requires Valid()
      modifies this`words
      ensures Valid()
      ensures 0 <= index < |old(words)| ==> words == old(words)[..index] + old(words)[index + 1..]
      ensures !(0 <= index < |old(words)|) ==> words == old(words)
    {
      DropIndexSpec(words, index);
      words := DropIndex(words, index);
    }

    /** The search box; the page number is left as it is. */
    method SetSearchQuery(query: string)
      modifies this`searchQuery
      ensures searchQuery == query
    {
      searchQuery := query;
    }

    /** `filteredWords`: the words whose translation matches the query, all of them for the empty query. */
    function FilteredWords(): (r: seq<Word>)
      reads this
      ensures |r| <= |words|
      ensures forall i :: 0 <= i < |r| ==> r[i] in words && Matches(r[i].english, searchQuery)
      ensures searchQuery == "" ==> r == words
    {
      SearchEmptyTerm(words, EnglishOf);
      Search(words, EnglishOf, searchQuery)
    }

    /**
     * `currentWords`: at most ten matching words, and none at all once the
     * page number is past the last page of the current view.
     */
    function CurrentWords(): (r: seq<Word>)
      reads this
      requires Valid()
      ensures |r| <= PageSize
      ensures forall i :: 0 <= i < |r| ==> r[i] in words && Matches(r[i].english, searchQuery)
      ensures r == [] <==> currentPage > PageCount(|FilteredWords()|)
    {
      PageOfSearch(words, EnglishOf, searchQuery, currentPage);
      PageNonEmptyIff(FilteredWords(), currentPage);
      PageSlice(FilteredWords(), currentPage)
    }

    /** `paginate(pageNumber)`, called by the page buttons with `i + 1`. */
    method Paginate(pageNumber: int)
      requires pageNumber >= 1
      modifies this`currentPage
      ensures Valid() && currentPage == pageNumber
      ensures pageNumber <= PageCount(|FilteredWords()|) ==> CurrentWords() != []
    {
      currentPage := pageNumber;
    }

    /** The "Add Word" button. */
    method OpenModal()
      modifies this`isModalOpen
      ensures isModalOpen
    {
      isModalOpen := true;
    }

    /** The dialog's `onOpenChange={setIsModalOpen}`. */
    method SetModalOpen(open: bool)
      modifies this`isModalOpen
      ensures isModalOpen == open
    {
      isModalOpen := open;
    }

    /** Typing into one of the three inputs of the dialog. */
    method EditDraft(field: Field, value: string)
      modifies this`newWord
      ensures newWord == WithField(old(newWord), field, value)
    {
      newWord := WithField(newWord, field, value);
    }
  }

  /**
   * A search that narrows the view under a later page leaves that page
   * number in place, and the grid goes blank: 11 matching words on page 2,
   * then a search that matches only one of them.
   */
  lemma StalePageAfterSearch(words: seq<Word>, query: string)
    requires |words| == 11
    requires |Search(words, EnglishOf, query)| == 1
    ensures |PageSlice(Search(words, EnglishOf, ""), 2)| == 1
    ensures PageSlice(Search(words, EnglishOf, query), 2) == []
  {
    SearchEmptyTerm(words, EnglishOf);
  }
}
