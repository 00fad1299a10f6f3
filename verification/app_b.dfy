/**
 * The second variant (`1b.jsx`): the dialog keeps the draft and submits it
 * unchecked, cards delete by their position on the page, the page is not
 * reset by a search, and the export builds its rows in a loop under the
 * header `Foreign Word,English,Pronunciation`.
 */
module AppB {
  import opened Text
  import opened Seqs
  import opened WordList

  /** The export's column names: `['Foreign Word', 'English', 'Pronunciation']`. */
  const HeaderWord := Word("Foreign Word", "English", "Pronunciation")

  lemma HeaderText()
    ensures Line(HeaderWord) == "Foreign Word,English,Pronunciation"
  {
  }

  /** The rows `exportToCSV` collects: the header, then one field triple per word. */
  function CsvRows(words: seq<Word>): (rows: seq<seq<string>>)
    ensures |rows| == |words| + 1
  {
    [FieldsOf(HeaderWord)] + FieldRows(words)
  }

  /** `csvRows.map(e => e.join(",")).join("\n")` */
  function CsvText(rows: seq<seq<string>>): (r: string)
    ensures rows == [] ==> r == ""
    ensures rows != [] ==> Join(rows[0], ",") <= r
  {
    Join(seq(|rows|, i requires 0 <= i < |rows| => Join(rows[i], ",")), "\n")
  }

  /**
   * The export is the header line followed by the same comma-joined line per
   * word that the other variants write, joined by newlines.
   */
  lemma CsvTextIsLines(words: seq<Word>)
    ensures CsvText(CsvRows(words)) == Join([Line(HeaderWord)] + Lines(words), "\n")
  {
    var rows := CsvRows(words);
    var joined := seq(|rows|, i requires 0 <= i < |rows| => Join(rows[i], ","));
    var lines := [Line(HeaderWord)] + Lines(words);
    forall i | 0 <= i < |rows| ensures joined[i] == lines[i] {
      if i == 0 {
        assert rows[0] == FieldsOf(HeaderWord);
        FieldsJoinToLine(HeaderWord);
      } else {
        assert rows[i] == FieldsOf(words[i - 1]);
        assert lines[i] == Line(words[i - 1]);
        FieldsJoinToLine(words[i - 1]);
      }
    }
    assert joined == lines;
  }

  /** The header's own fields hold no comma and no newline. */
  lemma HeaderClean()
    ensures Clean(HeaderWord)
  {
  }

  /**
   * Read back naively, the export is |words| + 1 lines: the header fields,
   * then each word's fields in list order.
   */
  lemma ExportParses(words: seq<Word>)
    requires forall i :: 0 <= i < |words| ==> Clean(words[i])
    ensures |Split(CsvText(CsvRows(words)), '\n')| == |words| + 1
    ensures ParseCsv(CsvText(CsvRows(words))) == CsvRows(words)
  {
    CsvTextIsLines(words);
    HeaderClean();
    HeadedLinesParse(HeaderWord, words);
  }

  class App {
    var words: seq<Word>
    var isModalOpen: bool
    var searchTerm: string
    var currentPage: int

    /** Every page number the buttons pass is at least 1. */
    ghost predicate Valid()
      reads this
    {
      currentPage >= 1
    }

    constructor ()
      ensures Valid()
      ensures words == [] && !isModalOpen && searchTerm == "" && currentPage == 1
    {
      words, isModalOpen, searchTerm, currentPage := [], false, "", 1;
    }

    /** `addWord(newWord)`: append unconditionally and close the dialog. */
    method AddWord(newWord: Word)
      requires Valid()
      modifies this`words, this`isModalOpen
      ensures Valid()
      ensures words == old(words) + [newWord] && !isModalOpen
    {
      words := words + [newWord];
      isModalOpen := false;
    }

    /** `deleteWord(index)`: remove that position of the full list, if there is one. */
    method DeleteWord(index: int)
      requires Valid()
      modifies this`words
      ensures Valid()
      ensures 0 <= index < |old(words)| ==> words == old(words)[..index] + old(words)[index + 1..]
      ensures !(0 <= index < |old(words)|) ==> words == old(words)
    {
      DropIndexSpec(words, index);
      words := DropIndex(words, index);
    }

    /** The search box; the page number is left as it is. */
    method SetSearchTerm(term: string)
      modifies this`searchTerm
      ensures searchTerm == term
    {
      searchTerm := term;
    }

    /** `filteredWords`: the words whose translation matches the term, all of them for the empty term. */
    function FilteredWords(): (r: seq<Word>)
      reads this
      ensures |r| <= |words|
      ensures forall i :: 0 <= i < |r| ==> r[i] in words && Matches(r[i].english, searchTerm)
      ensures searchTerm == "" ==> r == words
    {
      SearchEmptyTerm(words, EnglishOf);
      Search(words, EnglishOf, searchTerm)
    }

    /**
     * `currentWords`: at most ten matching words, and none at all once the
     * page number is past the last page of the current view.
     */
    function CurrentWords(): (r: seq<Word>)
      reads this
      requires Valid()
      ensures |r| <= PageSize
      ensures forall i :: 0 <= i < |r| ==> r[i] in words && Matches(r[i].english, searchTerm)
      ensures r == [] <==> currentPage > PageCount(|FilteredWords()|)
    {
      PageOfSearch(words, EnglishOf, searchTerm, currentPage);
      PageNonEmptyIff(FilteredWords(), currentPage);
      PageSlice(FilteredWords(), currentPage)
    }

    /** `paginate(pageNumber)`: button `i` passes `i + 1`. */
    method Paginate(pageNumber: int)
      requires pageNumber >= 1
      modifies this`currentPage
      ensures Valid() && currentPage == pageNumber
      ensures pageNumber <= PageCount(|FilteredWords()|) ==> CurrentWords() != []
    {
      currentPage := pageNumber;
    }

    /** The "Add Word" button. */
    method OpenModal()
      modifies this`isModalOpen
      ensures isModalOpen
    {
      isModalOpen := true;
    }

    /** The dialog's `onClose`. */
    method CloseModal()
      modifies this`isModalOpen
      ensures !isModalOpen
    {
      isModalOpen := false;
    }

    /**
     * `exportToCSV`: push the header row, push one row per word in a loop,
     * then join each row with "," and the rows with "\n".
     */
    method ExportToCsv() returns (csv: string)
      ensures csv == CsvText(CsvRows(words))
      ensures csv == Join([Line(HeaderWord)] + Lines(words), "\n")
    {
      var csvRows: seq<seq<string>> := [];
      csvRows := csvRows + [FieldsOf(HeaderWord)];
      var i := 0;
      while i < |words|
        invariant 0 <= i <= |words|
        invariant csvRows == CsvRows(words[..i])
      {
        assert FieldRows(words[..i + 1]) == FieldRows(words[..i]) + [FieldsOf(words[i])];
        csvRows := csvRows + [FieldsOf(words[i])];
        i := i + 1;
      }
      assert words[..i] == words;
      csv := CsvText(csvRows);
      CsvTextIsLines(words);
    }
  }

  /** The add dialog's own state: the draft (`AddWordModal`). */
  class AddWordModal {
    var word: Word

    constructor ()
      ensures word == EmptyWord
    {
      word := EmptyWord;
    }

    /** Typing into one of the three inputs. */
    method Edit(field: Field, value: string)
      modifies this
      ensures word == WithField(old(word), field, value)
    {
      word := WithField(word, field, value);
    }

    /**
     * `handleSubmit`: hand the draft, unchecked, to `addWord` (which closes
     * the dialog), then reset the draft.
     */
    method HandleSubmit(app: App)
      requires app.Valid()
      modifies this, app
      ensures app.Valid()
      ensures app.words == old(app.words) + [old(word)] && !app.isModalOpen
      ensures word == EmptyWord
      ensures app.searchTerm == old(app.searchTerm) && app.currentPage == old(app.currentPage)
    {
      app.AddWord(word);
      word := EmptyWord;
    }
  }
}
