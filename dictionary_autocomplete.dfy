/**
 * The search box's helpers: the abbreviation tables for word types and aspects, the key
 * that identifies a result row, the selection handler and the status line shown above
 * the result list.
 */
module DictionaryAutocomplete {
  import opened Wrappers
  import opened Records
  import opened Schema
  import opened Text
  import DictionarySearch

  // ── Abbreviation tables ────────────────────────────────────────────────────

  const WordTypeLabels: map<string, string> := map[
    "noun" := "noun",
    "verb" := "verb",
    "adjective" := "adj",
    "adverb" := "adv",
    "pronoun" := "pron",
    "preposition" := "prep",
    "conjunction" := "conj",
    "numeral" := "num"
  ]

  const AspectLabels: map<string, string> := map["perfective" := "pf.", "imperfective" := "impf."]

  /** `labels[wordType] || wordType`: the tag of a word type; an unlisted type is shown as it is. */
  function WordTypeLabel(wordType: string): (tag: string)
    ensures wordType in WordTypeLabels ==> tag == WordTypeLabels[wordType]
    ensures wordType !in WordTypeLabels ==> tag == wordType
    ensures |tag| <= |wordType|
  {
    if wordType in WordTypeLabels && WordTypeLabels[wordType] != "" then WordTypeLabels[wordType] else wordType
  }

  /** Every word type of the schema gets its own tag: no two types share one. */
  lemma WordTypeTagsDistinct(a: WordType, b: WordType)
    requires a != b
    ensures WordTypeLabel(a.Name()) != WordTypeLabel(b.Name())
  {
  }

  /** `getAspectLabel`: none for a missing or empty aspect, else the abbreviation or the aspect itself. */
  function AspectLabel(aspect: Option<string>): (tag: Option<string>)
    ensures tag.None? <==> !Truthy(aspect)
    ensures Truthy(aspect) && aspect.value in AspectLabels ==> tag == Some(AspectLabels[aspect.value])
    ensures Truthy(aspect) && aspect.value !in AspectLabels ==> tag == aspect
  {
    if !Truthy(aspect) then None
    else if aspect.value in AspectLabels && AspectLabels[aspect.value] != "" then Some(AspectLabels[aspect.value])
    else aspect
  }

  /** The schema's two aspects are shortened to "pf." and "impf.". */
  lemma SchemaAspectLabels()
    ensures AspectLabel(Some(Perfective.Name())) == Some("pf.")
    ensures AspectLabel(Some(Imperfective.Name())) == Some("impf.")
  {
  }

  // ── Row keys and selection ────────────────────────────────────────────────

  /** `${root_word_id}-${matched_form}`: the value and the key of a result row. */
  function RowKey(r: SearchResult): string {
    IntToString(r.rootWordId) + "-" + r.matchedForm
  }

  /** A row key ends with the matched form, preceded by a '-' and the root word id in decimal. */
  lemma RowKeyShape(r: SearchResult)
    ensures var key := RowKey(r); var n := |key| - |r.matchedForm|;
            n >= 2 && key[n..] == r.matchedForm && key[n - 1] == '-' && key[..n - 1] == IntToString(r.rootWordId)
  {
    var key, id := RowKey(r), IntToString(r.rootWordId);
    assert key == id + ['-'] + r.matchedForm;
  }

  /**
   * The row key determines the root word id and the matched form: the id's digits contain
   * no '-', so the first '-' after an optional sign separates the two.
   */
  lemma RowKeyInjective(a: SearchResult, b: SearchResult)
    requires RowKey(a) == RowKey(b)
    ensures a.rootWordId == b.rootWordId && a.matchedForm == b.matchedForm
  {
    var ia, ib := IntToString(a.rootWordId), IntToString(b.rootWordId);
    assert ia[0] == RowKey(a)[0] == RowKey(b)[0] == ib[0];
    var sa, sb := if a.rootWordId < 0 then 1 else 0, if b.rootWordId < 0 then 1 else 0;
    assert sa == sb;
    var da, db := ia[sa..], ib[sb..];
    assert '-' !in da by {
      forall k | 0 <= k < |da| ensures da[k] != '-' {
        assert IsDigit(ia[sa + k]);
      }
    }
    assert '-' !in db by {
      forall k | 0 <= k < |db| ensures db[k] != '-' {
        assert IsDigit(ib[sb + k]);
      }
    }
    assert RowKey(a)[sa..] == da + ['-'] + a.matchedForm;
    assert RowKey(b)[sb..] == db + ['-'] + b.matchedForm;
    SplitAtFirst(da, a.matchedForm, db, b.matchedForm, '-');
    assert ia == ia[..sa] + da && ib == ib[..sb] + db;
    assert ia[..sa] == ib[..sb];
    IntToStringInjective(a.rootWordId, b.rootWordId);
  }

  /** `results.find(r => key(r) === value)`: the first result whose row key is `value`. */
  function FindByKey(results: seq<SearchResult>, value: string): (found: Option<SearchResult>)
    ensures found.None? <==> forall i :: 0 <= i < |results| ==> RowKey(results[i]) != value
    ensures found.Some? ==> exists i :: 0 <= i < |results| && results[i] == found.value
                                        && RowKey(results[i]) == value
                                        && forall j :: 0 <= j < i ==> RowKey(results[j]) != value
  {
    if results == [] then None
    else if RowKey(results[0]) == value then Some(results[0])
    else
      var rest := FindByKey(results[1..], value);
      assert forall i :: 0 < i < |results| ==> results[i] == results[1..][i - 1];
      rest
  }

  /** What choosing a row does: nothing, or hand the result to `onSelect` and reset the query. */
  datatype SelectionEffect = NoEffect | SelectAndReset(selected: SearchResult)

  /** `onValueChange`: a non-empty value selects the first result with that key; otherwise nothing happens. */
  function OnValueChange(results: seq<SearchResult>, value: Option<string>): (effect: SelectionEffect)
    ensures effect.SelectAndReset? <==>
              Truthy(value) && exists i :: 0 <= i < |results| && RowKey(results[i]) == value.value
    ensures effect.SelectAndReset? ==> FindByKey(results, value.value) == Some(effect.selected)
  {
    if !Truthy(value) then NoEffect
    else
      match FindByKey(results, value.value)
      case Some(r) => SelectAndReset(r)
      case None => NoEffect
  }

  /**
   * When the rows have distinct (root word id, matched form) pairs, the identity the
   * search service promises, choosing a row selects exactly that row.
   */
  lemma ChoosingRowSelectsIt(results: seq<SearchResult>, i: nat)
    requires i < |results|
    requires forall j, k :: 0 <= j < k < |results| ==>
               (results[j].rootWordId, results[j].matchedForm) != (results[k].rootWordId, results[k].matchedForm)
    ensures OnValueChange(results, Some(RowKey(results[i]))) == SelectAndReset(results[i])
  {
    var key := RowKey(results[i]);
    assert key != "" by {
      assert |IntToString(results[i].rootWordId)| >= 1;
    }
    var effect := OnValueChange(results, Some(key));
    var m :| 0 <= m < |results| && results[m] == effect.selected && RowKey(results[m]) == key
             && forall j :: 0 <= j < m ==> RowKey(results[j]) != key;
    RowKeyInjective(results[m], results[i]);
    if m != i {
      assert false;
    }
  }

  /**
   * The handler applied to the search hook: on a selection the query is reset through
   * the hook's setter (raw text and funnel both get ""); otherwise nothing changes.
   */
  method HandleValueChange(search: DictionarySearch.SearchCoordinator, results: seq<SearchResult>, value: Option<string>)
      returns (selected: Option<SearchResult>)
    modifies search
    ensures OnValueChange(results, value).SelectAndReset? ==>
              selected == Some(OnValueChange(results, value).selected)
              && search.query == "" && search.pending == Some("")
              && search.debouncedQuery == old(search.debouncedQuery)
    ensures OnValueChange(results, value).NoEffect? ==>
              selected == None && unchanged(search)
  {
    match OnValueChange(results, value)
    case SelectAndReset(r) =>
      search.SetQuery("");
      selected := Some(r);
    case NoEffect =>
      selected := None;
  }

  // ── Status line ────────────────────────────────────────────────────────────

  /** The length of raw input below which the box asks for more typing. */
  const PromptLength: nat := 2

  datatype StatusMessage = Searching | NoResultsFound | TypeToSearch {
    function Text(): string {
      match this
      case Searching => "Searching..."
      case NoResultsFound => "No results found."
      case TypeToSearch => "Type to search..."
    }
  }

  /** The messages rendered, in order: each appears when its own condition holds. */
  function StatusMessages(loading: bool, query: string, results: seq<SearchResult>): (shown: seq<StatusMessage>)
    ensures Searching in shown <==> loading
    ensures NoResultsFound in shown <==> !loading && |query| >= PromptLength && |results| == 0
    ensures TypeToSearch in shown <==> !loading && |query| < PromptLength
  {
    (if loading then [Searching] else [])
    + (if !loading && |query| >= PromptLength && |results| == 0 then [NoResultsFound] else [])
    + (if !loading && |query| < PromptLength then [TypeToSearch] else [])
  }

  /** The three conditions exclude each other: at most one status message is shown. */
  lemma StatusMessagesExclusive(loading: bool, query: string, results: seq<SearchResult>)
    ensures |StatusMessages(loading, query, results)| <= 1
    ensures StatusMessages(loading, query, results) == [] <==> !loading && |query| >= PromptLength && |results| > 0
  {
  }
}
