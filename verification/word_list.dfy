/**
 * What the three versions of the vocabulary tracker share: the word record,
 * the case-insensitive search on the English translation, 1-indexed paging
 * with ten cards per page, and the comma/newline text of the CSV export.
 */
module WordList {
  import opened Text
  import opened Seqs

  /** One vocabulary entry, as the add form produces it. */
  datatype Word = Word(foreign: string, english: string, pronunciation: string)

  /** The draft the add forms start from and are reset to. */
  const EmptyWord := Word("", "", "")

  /** Cards per page (`wordsPerPage`). */
  const PageSize: nat := 10

  /** The three inputs of the add form. */
  datatype Field = Foreign | English | Pronunciation

  function FieldOf(w: Word, f: Field): string
  {
    match f
    case Foreign => w.foreign
    case English => w.english
    case Pronunciation => w.pronunciation
  }

  /** `{ ...word, [field]: value }`: the draft after typing into one input. */
  function WithField(w: Word, f: Field, value: string): (r: Word)
    ensures FieldOf(r, f) == value
    ensures forall g :: g != f ==> FieldOf(r, g) == FieldOf(w, g)
  {
    match f
    case Foreign => w.(foreign := value)
    case English => w.(english := value)
    case Pronunciation => w.(pronunciation := value)
  }

  function EnglishOf(w: Word): string
  {
    w.english
  }

  // ---------------------------------------------------------------------
  // Search
  // ---------------------------------------------------------------------

  /**
   * `english.toLowerCase().includes(term.toLowerCase())`: the empty term
   * matches every translation, and a term longer than the translation none.
   */
  predicate Matches(english: string, term: string)
    ensures term == "" ==> Matches(english, term)
    ensures Matches(english, term) ==> |term| <= |english|
  {
    Includes(Lower(english), Lower(term))
  }

  /** A word matches when the lower-cased term occurs in its lower-cased translation. */
  lemma MatchesIff(english: string, term: string)
    ensures Matches(english, term) <==> exists i :: OccursAt(Lower(english), Lower(term), i)
  {
    IncludesIff(Lower(english), Lower(term));
  }

  /** The search predicate for entries whose translation `english` extracts. */
  function Matcher<T>(english: T -> string, term: string): T -> bool
  {
    x => Matches(english(x), term)
  }

  /** `xs.filter(x => english(x).toLowerCase().includes(term.toLowerCase()))` */
  function Search<T>(xs: seq<T>, english: T -> string, term: string): (r: seq<T>)
    ensures |r| <= |xs|
    ensures forall i :: 0 <= i < |r| ==> r[i] in xs && Matches(english(r[i]), term)
  {
    Filter(xs, Matcher(english, term))
  }

  /**
   * Search keeps exactly the matching entries, each as often as it occurs in
   * the list, in list order; the empty term keeps the whole list.
   */
  lemma SearchSpec<T>(xs: seq<T>, english: T -> string, term: string)
    ensures forall i :: 0 <= i < |Search(xs, english, term)| ==>
      Search(xs, english, term)[i] in xs && Matches(english(Search(xs, english, term)[i]), term)
    ensures forall i :: 0 <= i < |xs| && Matches(english(xs[i]), term) ==> xs[i] in Search(xs, english, term)
    ensures forall x :: multiset(Search(xs, english, term))[x] ==
                       (if Matches(english(x), term) then multiset(xs)[x] else 0)
    ensures IsSubsequence(Search(xs, english, term), xs)
    ensures term == "" ==> Search(xs, english, term) == xs
  {
    var keep := Matcher(english, term);
    FilterCount(xs, keep);
    FilterIsSubsequence(xs, keep);
    SearchEmptyTerm(xs, english);
  }

  /** The empty term matches every entry. */
  lemma SearchEmptyTerm<T>(xs: seq<T>, english: T -> string)
    ensures Search(xs, english, "") == xs
  {
    var keep := Matcher(english, "");
    assert forall x :: x in xs ==> keep(x);
    FilterKeepsAll(xs, keep);
  }

  /** Search ignores case: two terms that lower-case alike give the same result. */
  lemma SearchIgnoresCase<T>(xs: seq<T>, english: T -> string, term: string, term': string)
    requires Lower(term) == Lower(term')
    ensures Search(xs, english, term) == Search(xs, english, term')
  {
    FilterCongruent(xs, Matcher(english, term), Matcher(english, term'));
  }

  /** Searching "CAT" finds exactly what searching "cat" finds. */
  lemma SearchCapitalsLikeLowerCase<T>(xs: seq<T>, english: T -> string)
    ensures Search(xs, english, "CAT") == Search(xs, english, "cat")
  {
    assert Lower("CAT") == "cat";
    assert Lower("cat") == "cat";
    SearchIgnoresCase(xs, english, "CAT", "cat");
  }

  /** Adding an entry extends the search result by that entry exactly when it matches. */
  lemma SearchAppend<T>(xs: seq<T>, x: T, english: T -> string, term: string)
    ensures Search(xs + [x], english, term) ==
      Search(xs, english, term) + (if Matches(english(x), term) then [x] else [])
  {
    FilterAppend(xs, [x], Matcher(english, term));
  }

  // ---------------------------------------------------------------------
  // Paging
  // ---------------------------------------------------------------------

  function Min(a: int, b: int): int
  {
    if a < b then a else b
  }

  /** How `Array.prototype.slice` reads a bound: negative bounds count from the end, then clamp to `[0, n]`. */
  function SliceBound(i: int, n: nat): (r: nat)
    ensures r <= n
    ensures 0 <= i ==> r == Min(i, n)
    ensures i < 0 ==> r == if n + i < 0 then 0 else n + i
  {
    if i < 0 then (if n + i < 0 then 0 else n + i) else if i < n then i else n
  }

  /** `s.slice(start, end)`. */
  function JsSlice<T>(s: seq<T>, start: int, end: int): (r: seq<T>)
    ensures |r| <= |s|
    ensures 0 <= start <= end ==> |r| <= end - start
  {
    var k, f := SliceBound(start, |s|), SliceBound(end, |s|);
    if k < f then s[k..f] else []
  }

  /**
   * `view.slice((page - 1) * wordsPerPage, page * wordsPerPage)`: for a page
   * number from 1 on, positions `(page-1)*10` up to `page*10` of the view,
   * cut off at its end, so never more than ten cards.
   */
  function PageSlice<T>(view: seq<T>, page: int): (r: seq<T>)
    ensures page >= 1 ==> r == view[Min((page - 1) * PageSize, |view|)..Min(page * PageSize, |view|)]
    ensures page >= 1 ==> |r| <= PageSize
  {
    JsSlice(view, (page - 1) * PageSize, page * PageSize)
  }

  /** Card `k` of a page shows entry `(page-1)*10 + k` of the view. */
  lemma PageEntryAt<T>(view: seq<T>, page: int, k: int)
    requires page >= 1
    requires 0 <= k < |PageSlice(view, page)|
    ensures (page - 1) * PageSize + k < |view|
    ensures PageSlice(view, page)[k] == view[(page - 1) * PageSize + k]
    ensures PageSlice(view, page)[k] in view
  {
    assert (page - 1) * PageSize < |view|;
  }

  /** `Math.ceil(n / wordsPerPage)`: the number of page buttons. */
  function PageCount(n: nat): (r: nat)
    ensures r * PageSize >= n
    ensures r == 0 || (r - 1) * PageSize < n
    ensures r == 0 <==> n == 0
  {
    (n + PageSize - 1) / PageSize
  }

  /** Every card on a page of a search result is a list entry that matches the term. */
  lemma PageOfSearch<T>(xs: seq<T>, english: T -> string, term: string, page: int)
    requires page >= 1
    ensures forall i :: 0 <= i < |PageSlice(Search(xs, english, term), page)| ==>
      PageSlice(Search(xs, english, term), page)[i] in xs &&
      Matches(english(PageSlice(Search(xs, english, term), page)[i]), term)
  {
    var view := Search(xs, english, term);
    forall i | 0 <= i < |PageSlice(view, page)|
      ensures PageSlice(view, page)[i] in xs && Matches(english(PageSlice(view, page)[i]), term)
    {
      PageEntryAt(view, page, i);
    }
  }

  /** A page from 1 on is non-empty exactly when it is not past the last page. */
  lemma PageNonEmptyIff<T>(view: seq<T>, page: int)
    requires page >= 1
    ensures PageSlice(view, page) != [] <==> page <= PageCount(|view|)
  {
    var c := PageCount(|view|);
    if page <= c {
      assert (page - 1) * PageSize <= (c - 1) * PageSize;
    } else {
      assert (page - 1) * PageSize >= c * PageSize;
    }
  }

  /** With 25 entries the pages hold 10, 10, 5 and then 0 cards. */
  lemma TwentyFiveEntries<T>(view: seq<T>)
    requires |view| == 25
    ensures |PageSlice(view, 1)| == 10 && |PageSlice(view, 2)| == 10
    ensures |PageSlice(view, 3)| == 5 && PageSlice(view, 4) == []
    ensures PageCount(|view|) == 3
  {
  }

  /** The first `k` pages, one after the other. */
  function ConcatPages<T>(view: seq<T>, k: nat): seq<T>
  {
    if k == 0 then [] else ConcatPages(view, k - 1) + PageSlice(view, k)
  }

  /** The first `k` pages together are the first `10*k` entries of the view. */
  lemma {:induction false} ConcatPagesPrefix<T>(view: seq<T>, k: nat)
    ensures ConcatPages(view, k) == view[..Min(k * PageSize, |view|)]
  {
    if k > 0 {
      ConcatPagesPrefix(view, k - 1);
      var a, b := Min((k - 1) * PageSize, |view|), Min(k * PageSize, |view|);
      assert view[..a] + view[a..b] == view[..b];
    }
  }

  /**
   * `Array.from({length: Math.ceil(n / wordsPerPage)}, (_, i) => i + 1)`: the
   * page each button selects; button `i` selects page `i + 1`.
   */
  function PageButtons(n: nat): (r: seq<int>)
    ensures |r| == PageCount(n)
    ensures forall i :: 0 <= i < |r| ==> r[i] == i + 1
  {
    seq(PageCount(n), i requires 0 <= i < PageCount(n) => i + 1)
  }

  /**
   * Every page a button selects is non-empty, and those pages, in button
   * order, put together give back the whole view.
   */
  lemma ButtonsCoverView<T>(view: seq<T>)
    ensures forall i :: 0 <= i < |PageButtons(|view|)| ==> PageSlice(view, PageButtons(|view|)[i]) != []
    ensures ConcatPages(view, |PageButtons(|view|)|) == view
  {
    var buttons := PageButtons(|view|);
    forall i | 0 <= i < |buttons| ensures PageSlice(view, buttons[i]) != [] {
      PageNonEmptyIff(view, buttons[i]);
    }
    ConcatPagesPrefix(view, |buttons|);
  }

  // ---------------------------------------------------------------------
  // CSV text
  // ---------------------------------------------------------------------

  /** `` `${w.foreign},${w.english},${w.pronunciation}` ``: one CSV line, no quoting. */
  function Line(w: Word): (r: string)
    ensures |r| == |w.foreign| + |w.english| + |w.pronunciation| + 2
  {
    w.foreign + "," + w.english + "," + w.pronunciation
  }

  function Lines(ws: seq<Word>): (r: seq<string>)
    ensures |r| == |ws|
  {
    seq(|ws|, i requires 0 <= i < |ws| => Line(ws[i]))
  }

  /** `[w.foreign, w.english, w.pronunciation]` */
  function FieldsOf(w: Word): seq<string>
  {
    [w.foreign, w.english, w.pronunciation]
  }

  function FieldRows(ws: seq<Word>): (r: seq<seq<string>>)
    ensures |r| == |ws|
  {
    seq(|ws|, i requires 0 <= i < |ws| => FieldsOf(ws[i]))
  }

  /** Joining the three fields with a bare comma gives the template line. */
  lemma FieldsJoinToLine(w: Word)
    ensures Join(FieldsOf(w), ",") == Line(w)
  {
    assert FieldsOf(w)[1..] == [w.english, w.pronunciation];
    assert [w.english, w.pronunciation][1..] == [w.pronunciation];
    assert Join([w.english, w.pronunciation], ",") == w.english + "," + w.pronunciation;
  }

  /** No field holds a comma or a newline, so the unquoted CSV is unambiguous. */
  predicate Clean(w: Word)
  {
    ',' !in w.foreign && ',' !in w.english && ',' !in w.pronunciation &&
    '\n' !in w.foreign && '\n' !in w.english && '\n' !in w.pronunciation
  }

  /** The naive reading of CSV text: split into lines at `\n`, then each line at `,`. */
  function ParseCsv(text: string): (r: seq<seq<string>>)
    ensures |r| >= 1
  {
    var ls := Split(text, '\n');
    seq(|ls|, i requires 0 <= i < |ls| => Split(ls[i], ','))
  }

  /** A line of clean fields has no newline and splits back into its three fields. */
  lemma LineParses(w: Word)
    requires Clean(w)
    ensures '\n' !in Line(w)
    ensures Split(Line(w), ',') == FieldsOf(w)
  {
    var tail := w.english + [','] + w.pronunciation;
    assert Line(w) == w.foreign + [','] + tail;
    SplitAfter(w.foreign, ',', tail);
    SplitAfter(w.english, ',', w.pronunciation);
    assert Split(w.pronunciation, ',') == [w.pronunciation];
  }

  /** Reading back newline-joined lines splits each one at its commas. */
  lemma ParseJoined(lines: seq<string>)
    requires |lines| >= 1
    requires forall i :: 0 <= i < |lines| ==> '\n' !in lines[i]
    ensures Split(Join(lines, "\n"), '\n') == lines
    ensures ParseCsv(Join(lines, "\n")) == seq(|lines|, i requires 0 <= i < |lines| => Split(lines[i], ','))
  {
    SplitJoin(lines, '\n');
  }

  /** The lines of clean words read back as their field triples. */
  lemma {:induction false} LinesParse(ws: seq<Word>)
    requires forall i :: 0 <= i < |ws| ==> Clean(ws[i])
    ensures forall i :: 0 <= i < |ws| ==> '\n' !in Lines(ws)[i]
    ensures seq(|ws|, i requires 0 <= i < |ws| => Split(Lines(ws)[i], ',')) == FieldRows(ws)
  {
    forall i | 0 <= i < |ws| ensures '\n' !in Lines(ws)[i] && Split(Lines(ws)[i], ',') == FieldsOf(ws[i]) {
      LineParses(ws[i]);
    }
  }

  /**
   * A header line followed by the word lines, joined by newlines, reads back
   * line for line, and then as the header's fields and each word's fields.
   */
  lemma HeadedLinesParse(h: Word, ws: seq<Word>)
    requires Clean(h)
    requires forall i :: 0 <= i < |ws| ==> Clean(ws[i])
    ensures Split(Join([Line(h)] + Lines(ws), "\n"), '\n') == [Line(h)] + Lines(ws)
    ensures ParseCsv(Join([Line(h)] + Lines(ws), "\n")) == [FieldsOf(h)] + FieldRows(ws)
  {
    var all := [h] + ws;
    forall i | 0 <= i < |all| ensures Clean(all[i]) {
      if i > 0 {
        assert all[i] == ws[i - 1];
      }
    }
    assert Lines(all) == [Line(h)] + Lines(ws);
    assert FieldRows(all) == [FieldsOf(h)] + FieldRows(ws);
    LinesParse(all);
    ParseJoined(Lines(all));
  }

  // ---------------------------------------------------------------------
  // Delete from a card by its position on the page (1a.jsx, 1b.jsx)
  // ---------------------------------------------------------------------

  /**
   * On page 1 of a view the search leaves whole, card `k` shows `words[k]`,
   * and deleting position `k` of the list removes exactly that entry.
   */
  lemma CardIndexAgreesOnFirstPage(words: seq<Word>, term: string, k: int)
    requires Search(words, EnglishOf, term) == words
    requires 0 <= k < |PageSlice(Search(words, EnglishOf, term), 1)|
    ensures PageSlice(Search(words, EnglishOf, term), 1)[k] == words[k]
    ensures DropIndex(words, k) == words[..k] + words[k + 1..]
  {
    DropIndexSpec(words, k);
  }

  /**
   * On any later page, under any search term, card `k` shows an entry that
   * sits after position `k` of the list, but its Delete passes `k`: the entry
   * at position `k` goes and the shown entry stays. With the empty term the
   * card shows `words[(page-1)*10 + k]`.
   */
  lemma CardIndexMissesOnLaterPage(words: seq<Word>, term: string, page: int, k: int)
    requires page >= 2
    requires 0 <= k < |PageSlice(Search(words, EnglishOf, term), page)|
    ensures DropIndex(words, k) == words[..k] + words[k + 1..]
    ensures exists j :: k < j < |words| && words[j] == PageSlice(Search(words, EnglishOf, term), page)[k]
    ensures PageSlice(Search(words, EnglishOf, term), page)[k] in DropIndex(words, k)
    ensures term == "" ==> PageSlice(Search(words, EnglishOf, term), page)[k] == words[(page - 1) * PageSize + k]
  {
    var view := Search(words, EnglishOf, term);
    var shown := PageSlice(view, page)[k];
    FilterIsSubsequence(words, Matcher(EnglishOf, term));
    LaterCardPosition(words, view, page, k);
    var j :| k < j < |words| && words[j] == shown;
    DropIndexSpec(words, k);
    StillThere(words, k, j);
    if term == "" {
      SearchEmptyTerm(words, EnglishOf);
      PageEntryAt(words, page, k);
    }
  }

  /** On page 2 or later, card `k` of a subsequence sits after position `k` of the list. */
  lemma LaterCardPosition<T>(words: seq<T>, view: seq<T>, page: int, k: int)
    requires IsSubsequence(view, words)
    requires page >= 2
    requires 0 <= k < |PageSlice(view, page)|
    ensures exists j :: k < j < |words| && words[j] == PageSlice(view, page)[k]
  {
    PageEntryAt(view, page, k);
    SubsequencePosition(view, words, (page - 1) * PageSize + k);
  }

  /** Dropping position `k` keeps every entry at a later position. */
  lemma StillThere(words: seq<Word>, k: int, j: int)
    requires 0 <= k < j < |words|
    ensures words[j] in words[..k] + words[k + 1..]
  {
    assert words[j] == words[k + 1..][j - k - 1];
  }

  /**
   * Searching "dog" in [gato/cat, perro/dog] shows perro on the first card,
   * but its Delete passes 0: gato goes and perro stays.
   */
  lemma CardIndexMissesUnderSearch()
    ensures var words := [Word("gato", "cat", ""), Word("perro", "dog", "")];
      PageSlice(Search(words, EnglishOf, "dog"), 1) == [words[1]] &&
      DropIndex(words, 0) == [words[1]]
  {
    var words := [Word("gato", "cat", ""), Word("perro", "dog", "")];
    assert Lower("cat") == "cat";
    assert Lower("dog") == "dog";
    assert "cat"[1..] == "at" && "at"[1..] == "t" && "t"[1..] == "";
    assert !Includes("", "dog");
    assert !Includes("t", "dog");
    assert !Includes("at", "dog");
    assert "cat"[0] != "dog"[0];
    assert !Includes("cat", "dog");
    assert Includes("dog", "dog");
    assert EnglishOf(words[0]) == "cat" && EnglishOf(words[1]) == "dog";
    assert !Matches("cat", "dog") && Matches("dog", "dog");
    var keep := Matcher(EnglishOf, "dog");
    assert !keep(words[0]) && keep(words[1]);
    assert words[1..] == [words[1]] && [words[1]][1..] == [];
    assert Search(words, EnglishOf, "dog") == [words[1]];
  }
}
