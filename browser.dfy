/** The page state behind script.js: the case store `allCases`, the search box
    value, and what the page shows (the case list, the no-results notice, the
    count label and the loader), with the handlers that change them. */
module Browser {
  import opened Text
  import opened Cases
  import opened Render
  import opened Form

  /** What the case-list container holds: the case elements, or the error
      paragraph written when loading fails. */
  datatype ListArea = Cards(elements: seq<CaseElement>) | ErrorMessage(html: string)

  /** How fetching and decoding the data file ended. A network failure, a
      response whose status is not ok and a body that is not JSON all take
      the same path, so they are one outcome here. */
  datatype FetchOutcome = Failed | Loaded(data: seq<Case>)

  /** The paragraph shown in place of the list when loading fails. */
  const LoadErrorHtml: string := "<p class=\"error\">Failed to load case data. Please try again later.</p>"

  class CaseBrowser {
    /** The case store, newest additions first. */
    var allCases: seq<Case>
    /** The current value of the search box. */
    var searchValue: string
    var listArea: ListArea
    var noResultsVisible: bool
    var countText: string
    var loaderVisible: bool

    /** The display after `RenderCases(cases)`: one element per case, in
        order, the notice exactly when there is none, and the label counting
        `cases` against the whole store. */
    predicate Shows(cases: seq<Case>)
      reads this
    {
      && listArea == Cards(CaseElements(cases))
      && (noResultsVisible <==> |cases| == 0)
      && countText == CountLabel(searchValue, |cases|, |allCases|)
    }

    /** The page before the data file has been read: an empty store and an
        empty search box. */
    constructor ()
      ensures allCases == [] && searchValue == ""
      ensures listArea == Cards([]) && !noResultsVisible && countText == "" && !loaderVisible
    {
      allCases := [];
      searchValue := "";
      listArea := Cards([]);
      noResultsVisible := false;
      countText := "";
      loaderVisible := false;
    }

    /** `allCases = data`: the store is replaced wholesale. */
    method Replace(data: seq<Case>)
      modifies this
      ensures allCases == data
      ensures searchValue == old(searchValue) && listArea == old(listArea)
      ensures noResultsVisible == old(noResultsVisible) && countText == old(countText)
      ensures loaderVisible == old(loaderVisible)
    {
      allCases := data;
    }

    /** `allCases.unshift(c)`: the store grows by one, `c` first and the old
        store after it unchanged. */
    method Prepend(c: Case)
      modifies this
      ensures allCases == [c] + old(allCases)
      ensures |allCases| == |old(allCases)| + 1
      ensures allCases[0] == c && allCases[1..] == old(allCases)
      ensures searchValue == old(searchValue) && listArea == old(listArea)
      ensures noResultsVisible == old(noResultsVisible) && countText == old(countText)
      ensures loaderVisible == old(loaderVisible)
    {
      allCases := [c] + allCases;
      assert allCases[1..] == old(allCases);
    }

    /** `renderCases(cases)`: clears the list, sets the notice, appends one
        element per case in order and updates the count label. */
    method RenderCases(cases: seq<Case>)
      modifies this
      ensures Shows(cases)
      ensures allCases == old(allCases) && searchValue == old(searchValue)
      ensures loaderVisible == old(loaderVisible)
    {
      listArea := Cards([]);
      noResultsVisible := |cases| == 0;
      var i := 0;
      while i < |cases|
        invariant 0 <= i <= |cases|
        invariant listArea == Cards(CaseElements(cases[..i]))
        invariant noResultsVisible <==> |cases| == 0
        invariant allCases == old(allCases) && searchValue == old(searchValue)
        invariant loaderVisible == old(loaderVisible)
      {
        var element := CreateCaseElement(cases[i]);
        AppendedElements(cases, i);
        listArea := Cards(listArea.elements + [element]);
        i := i + 1;
      }
      assert cases[..i] == cases;
      countText := CountLabel(searchValue, |cases|, |allCases|);
    }

    /** `filterAndRender(filter)`: shows the cases of the store that match
        `filter`, in store order. */
    method FilterAndRender(filter: string)
      modifies this
      ensures Shows(Filter(filter, allCases))
      ensures allCases == old(allCases) && searchValue == old(searchValue)
      ensures loaderVisible == old(loaderVisible)
    {
      RenderCases(Filter(filter, allCases));
    }

    /** The `input` listener of the search box. */
    method OnSearchInput(value: string)
      modifies this
      ensures searchValue == value
      ensures Shows(Filter(value, allCases))
      ensures allCases == old(allCases) && loaderVisible == old(loaderVisible)
    {
      searchValue := value;
      FilterAndRender(value);
    }

    /** The `click` listener of the clear button: empties the search box and
        shows the whole store. */
    method OnClearSearch()
      modifies this
      ensures searchValue == ""
      ensures Shows(allCases)
      ensures countText == CountLabel("", |allCases|, |allCases|)
      ensures allCases == old(allCases) && loaderVisible == old(loaderVisible)
    {
      searchValue := "";
      FilterAndRender("");
      FilterEmptyQuery(allCases);
    }

    /** `handleFormSubmit`: builds the case from the form, puts it at the
        front of the store and re-renders with the current search. The date
        is the first ten characters of `isoTimestamp`. */
    method HandleFormSubmit(form: NewCaseForm, isoTimestamp: string)
      modifies this
      ensures allCases == [NewCase(form, isoTimestamp)] + old(allCases)
      ensures Shows(Filter(searchValue, allCases))
      ensures searchValue == old(searchValue) && loaderVisible == old(loaderVisible)
    {
      var c := NewCase(form, isoTimestamp);
      Prepend(c);
      FilterAndRender(searchValue);
    }

    /** `loadCases`, with the fetch as its outcome: on success the store is
        replaced and shown whole; on failure the store is kept and the list
        shows the error paragraph. The loader is hidden either way. */
    method LoadCases(outcome: FetchOutcome)
      modifies this
      ensures outcome.Loaded? ==> allCases == outcome.data && Shows(allCases)
      ensures outcome.Failed? ==> allCases == old(allCases) && listArea == ErrorMessage(LoadErrorHtml)
      ensures outcome.Failed? ==> noResultsVisible == old(noResultsVisible) && countText == old(countText)
      ensures searchValue == old(searchValue) && !loaderVisible
    {
      loaderVisible := true;
      match outcome {
        case Loaded(data) =>
          Replace(data);
          RenderCases(allCases);
        case Failed =>
          listArea := ErrorMessage(LoadErrorHtml);
      }
      loaderVisible := false;
    }
  }

  /** The elements of one more case of `cases`. */
  lemma AppendedElements(cases: seq<Case>, i: nat)
    requires i < |cases|
    ensures CaseElements(cases[..i + 1]) == CaseElements(cases[..i]) + [CreateCaseElement(cases[i])]
  {
    assert cases[..i + 1] == cases[..i] + [cases[i]];
    CaseElementsAppend(cases[..i], cases[i]);
  }

  // ---------------------------------------------------------------------
  // What the display means
  // ---------------------------------------------------------------------

  /** A page showing `cases` holds one element per case, the element at
      position `k` being that of the case at position `k`; with a case to show,
      the no-results notice is hidden. */
  lemma ShownElements(b: CaseBrowser, cases: seq<Case>, k: nat)
    requires b.Shows(cases) && k < |cases|
    ensures b.listArea.Cards? && |b.listArea.elements| == |cases|
    ensures b.listArea.elements[k] == CreateCaseElement(cases[k])
    ensures !b.noResultsVisible
  {
    CaseElementsAt(cases, k);
  }

  /** After a submission the new case is shown first exactly when it matches
      the search, and below it the list is that of the old store. */
  lemma SubmitDisplay(searchValue: string, c: Case, store: seq<Case>)
    ensures Matches(c, searchValue) ==>
      CaseElements(Filter(searchValue, [c] + store))
        == [CreateCaseElement(c)] + CaseElements(Filter(searchValue, store))
    ensures !Matches(c, searchValue) ==>
      CaseElements(Filter(searchValue, [c] + store)) == CaseElements(Filter(searchValue, store))
  {
    FilterPrepend(searchValue, c, store);
    var rest := Filter(searchValue, store);
    if Matches(c, searchValue) {
      assert ([c] + rest)[0] == c && ([c] + rest)[1..] == rest;
    } else {
      assert [] + rest == rest;
    }
  }

  /** With the search box empty every case is shown and the label gives the
      store size alone. */
  lemma EmptySearchShowsAll(store: seq<Case>)
    ensures CaseElements(Filter("", store)) == CaseElements(store)
    ensures CountLabel("", |Filter("", store)|, |store|) == "Showing all " + Decimal(|store|) + " cases."
  {
    FilterEmptyQuery(store);
  }
}
