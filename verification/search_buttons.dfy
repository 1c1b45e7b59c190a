/**
 * The search page: loads every link group of `Data.json` and shows, for a search
 * term, the buttons whose name contains it (case-insensitively), grouped by entry,
 * hiding entries with no matching button.
 */
module SearchButtons {
  import opened Wrappers
  import opened Seqs
  import JsText
  import opened Remote
  import opened LinkData

  /** `button.buttonName.toLowerCase().includes(searchTerm.toLowerCase())`. */
  predicate NameMatches(term: string, button: LinkButton) {
    JsText.Includes(JsText.ToLower(button.buttonName), JsText.ToLower(term))
  }

  function MatchesTerm(term: string): LinkButton -> bool {
    button => NameMatches(term, button)
  }

  /** `{ ...item, buttons: item.buttons.filter(...) }`: the entry with only its matching buttons. */
  function Narrow(entry: Entry, term: string): (e: Entry)
    ensures e.id == entry.id
    ensures IsSubsequence(e.buttons, entry.buttons)
    ensures forall k :: 0 <= k < |e.buttons| ==> NameMatches(term, e.buttons[k])
    ensures forall b :: multiset(e.buttons)[b] == if NameMatches(term, b) then multiset(entry.buttons)[b] else 0
  {
    FilterIsSubsequence(entry.buttons, MatchesTerm(term));
    FilterCounts(entry.buttons, MatchesTerm(term));
    Entry(entry.id, Filter(entry.buttons, MatchesTerm(term)))
  }

  /** `data.map(...)`: every entry narrowed, in order. */
  function NarrowAll(data: seq<Entry>, term: string): (r: seq<Entry>)
    ensures |r| == |data|
    ensures forall i :: 0 <= i < |data| ==> r[i] == Narrow(data[i], term)
  {
    seq(|data|, i requires 0 <= i < |data| => Narrow(data[i], term))
  }

  predicate HasButtons(entry: Entry) {
    |entry.buttons| > 0
  }

  function NonEmptyGroup(): Entry -> bool {
    entry => HasButtons(entry)
  }

  /** `filteredData`: the narrowed entries that still hold a button. */
  function SearchResults(data: seq<Entry>, term: string): seq<Entry> {
    Filter(NarrowAll(data, term), NonEmptyGroup())
  }

  /** Some button of the entry matches the term. */
  predicate AnyMatch(entry: Entry, term: string) {
    exists k :: 0 <= k < |entry.buttons| && NameMatches(term, entry.buttons[k])
  }

  /** A narrowed entry is non-empty exactly when one of its buttons matches. */
  lemma NarrowNonEmpty(entry: Entry, term: string)
    ensures HasButtons(Narrow(entry, term)) <==> AnyMatch(entry, term)
  {
    var kept := Narrow(entry, term).buttons;
    if HasButtons(Narrow(entry, term)) {
      assert kept[0] in entry.buttons;
      var k :| 0 <= k < |entry.buttons| && entry.buttons[k] == kept[0];
      assert NameMatches(term, entry.buttons[k]);
    }
    if AnyMatch(entry, term) {
      var k :| 0 <= k < |entry.buttons| && NameMatches(term, entry.buttons[k]);
      assert MatchesTerm(term)(entry.buttons[k]);
      assert entry.buttons[k] in kept;
    }
  }

  /**
   * What the page lists: groups in the order of the data, each the narrowing of some
   * entry (same id, its matching buttons in order), none of them empty; and every
   * entry with a matching button is listed.
   */
  lemma SearchResultsShape(data: seq<Entry>, term: string)
    ensures IsSubsequence(SearchResults(data, term), NarrowAll(data, term))
    ensures |SearchResults(data, term)| <= |data|
    ensures forall g :: g in SearchResults(data, term) ==>
      && HasButtons(g)
      && (forall k :: 0 <= k < |g.buttons| ==> NameMatches(term, g.buttons[k]))
      && exists i :: 0 <= i < |data| && g == Narrow(data[i], term)
    ensures forall i :: 0 <= i < |data| && AnyMatch(data[i], term) ==> Narrow(data[i], term) in SearchResults(data, term)
  {
    var all := NarrowAll(data, term);
    var shown := SearchResults(data, term);
    FilterIsSubsequence(all, NonEmptyGroup());
    forall g | g in shown
      ensures HasButtons(g) && exists i :: 0 <= i < |data| && g == Narrow(data[i], term)
    {
      var m :| 0 <= m < |shown| && shown[m] == g;
      assert NonEmptyGroup()(shown[m]);
      var i :| 0 <= i < |all| && all[i] == g;
      assert g == Narrow(data[i], term);
    }
    forall i | 0 <= i < |data| && AnyMatch(data[i], term)
      ensures Narrow(data[i], term) in shown
    {
      NarrowNonEmpty(data[i], term);
      assert NonEmptyGroup()(all[i]);
    }
  }

  /** Every name contains the empty term: an empty search lists every entry that has a button, whole. */
  lemma EmptyTermShowsAll(data: seq<Entry>)
    ensures SearchResults(data, "") == Filter(data, NonEmptyGroup())
  {
    forall e: Entry ensures Filter(e.buttons, MatchesTerm("")) == e.buttons {
      forall b | b in e.buttons ensures MatchesTerm("")(b) {
        JsText.IncludesEmpty(JsText.ToLower(b.buttonName));
      }
      FilterAll(e.buttons, MatchesTerm(""));
    }
    assert NarrowAll(data, "") == data;
  }

  /** A longer term never lists a group the shorter one hid: extending the term narrows the result. */
  lemma ExtendingTermNarrows(entry: Entry, term: string, more: string)
    ensures IsSubsequence(Narrow(entry, term + more).buttons, Narrow(entry, term).buttons)
  {
    forall b: LinkButton | MatchesTerm(term + more)(b) ensures MatchesTerm(term)(b) {
      var name, t := JsText.ToLower(b.buttonName), JsText.ToLower(term + more);
      JsText.IncludesIffOccurs(name, t);
      JsText.IncludesIffOccurs(name, JsText.ToLower(term));
      var i :| JsText.OccursAt(name, t, i);
      assert t[..|term|] == JsText.ToLower(term);
      assert name[i..i + |term|] == t[..|term|];
      assert JsText.OccursAt(name, JsText.ToLower(term), i);
    }
    FilterMonotone(entry.buttons, MatchesTerm(term + more), MatchesTerm(term));
  }

  /** The page state: the loaded entries, the search term, and the load status. */
  class SearchPage {
    var data: seq<Entry>
    var searchTerm: string
    var loading: bool
    var error: Option<string>
    /** The `selectedUrl` entry of the session storage. */
    var selectedUrl: Option<string>

    constructor()
      ensures data == [] && searchTerm == "" && loading && error == None && selectedUrl == None
    {
      data, searchTerm, loading, error, selectedUrl := [], "", true, None, None;
    }

    /**
     * What the page lists for the current term: at most one group per entry, each
     * an entry narrowed to its matching buttons, and every entry with a match listed.
     */
    function Shown(): (groups: seq<Entry>)
      reads this
      ensures |groups| <= |data|
      ensures forall g :: g in groups ==> HasButtons(g) && exists i :: 0 <= i < |data| && g == Narrow(data[i], searchTerm)
      ensures forall i :: 0 <= i < |data| && AnyMatch(data[i], searchTerm) ==> Narrow(data[i], searchTerm) in groups
    {
      SearchResultsShape(data, searchTerm);
      SearchResults(data, searchTerm)
    }

    /** `fetchData`: the entries (a single object read as one entry), or the error's message. */
    method FetchData(response: Response<Json<Entry>>)
      modifies this
      ensures !loading && searchTerm == old(searchTerm) && selectedUrl == old(selectedUrl)
      ensures response.Ok? ==> data == AsList(response.body) && error == old(error)
      ensures response.NotOk? ==> data == old(data) && error == Some("Failed to fetch data")
      ensures response.Rejected? ==> data == old(data) && error == Some(response.message)
    {
      match response {
        case Ok(body) =>
          data := AsList(body);
        case NotOk(_) =>
          error := Some("Failed to fetch data");
        case Rejected(message) =>
          error := Some(message);
      }
      loading := false;
    }

    /** `handleSearchChange`. */
    method HandleSearchChange(value: string)
      modifies this
      ensures searchTerm == value && data == old(data) && loading == old(loading) && error == old(error)
      ensures selectedUrl == old(selectedUrl)
      ensures Shown() == SearchResults(data, value)
    {
      searchTerm := value;
    }

    /** `handleButtonClick`: the URL is stored for the link page (opening tabs and the redirect are left out). */
    method HandleButtonClick(url: string)
      modifies this
      ensures selectedUrl == Some(url)
      ensures data == old(data) && searchTerm == old(searchTerm) && loading == old(loading) && error == old(error)
    {
      selectedUrl := Some(url);
    }
  }
}
