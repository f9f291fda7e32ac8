/** The search box and the filter tabs of the document list (src/components/DocumentList.tsx):
    which documents the list shows for a query and a tab. Case folding is the `lower`
    parameter, standing for `String.prototype.toLowerCase`. */
module DocumentList {
  import opened Types
  import opened Seqs
  import opened Text

  /** The filter tabs. */
  datatype FilterKind = All | Public | Private | Favorites

  /** `text.toLowerCase().includes(query.toLowerCase())`. */
  predicate FoldedContains(text: string, query: string, lower: string -> string) {
    Contains(lower(text), lower(query))
  }

  /** The search test: the title, or the content of some block, contains the query. */
  predicate MatchesSearch(doc: Document, query: string, lower: string -> string) {
    || FoldedContains(doc.title, query, lower)
    || exists b :: b in doc.blocks && FoldedContains(b.content, query, lower)
  }

  /** The tab test; `favorites` keeps only documents whose `isFavorite` is set and true. */
  predicate MatchesFilter(doc: Document, filter: FilterKind) {
    match filter
    case All => true
    case Public => doc.isPublic
    case Private => !doc.isPublic
    case Favorites => doc.isFavorite == Some(true)
  }

  predicate Shown(doc: Document, query: string, filter: FilterKind, lower: string -> string) {
    MatchesSearch(doc, query, lower) && MatchesFilter(doc, filter)
  }

  /** The documents the list shows before sorting: exactly those that match both the search and
      the tab, in their incoming order, each as often as it came. */
  function FilterDocuments(docs: seq<Document>, query: string, filter: FilterKind, lower: string -> string): (r: seq<Document>)
    ensures forall d :: d in r <==> d in docs && MatchesSearch(d, query, lower) && MatchesFilter(d, filter)
    ensures IsSubsequence(r, docs)
    ensures forall d :: Shown(d, query, filter, lower) ==> multiset(r)[d] == multiset(docs)[d]
  {
    Filter(docs, d => Shown(d, query, filter, lower))
  }

  /** With case folding that keeps the empty string empty, the empty query matches every
      document, so the list on the `all` tab shows every document in its order. */
  lemma EmptySearchShowsEverything(docs: seq<Document>, lower: string -> string)
    requires lower("") == ""
    ensures FilterDocuments(docs, "", All, lower) == docs
  {
    forall i | 0 <= i < |docs|
      ensures Shown(docs[i], "", All, lower)
    {
      ContainsEmpty(lower(docs[i].title));
    }
    FilterKeepsAll(docs, d => Shown(d, "", All, lower));
  }

  /** For any query, the `public` and `private` tabs split the `all` tab between them: together
      they hold every document of `all` exactly as often, and no document is on both. */
  lemma PublicAndPrivateSplitAll(docs: seq<Document>, query: string, lower: string -> string)
    ensures var all := FilterDocuments(docs, query, All, lower);
      multiset(FilterDocuments(docs, query, Public, lower)) + multiset(FilterDocuments(docs, query, Private, lower))
        == multiset(all)
    ensures forall d :: !(d in FilterDocuments(docs, query, Public, lower) && d in FilterDocuments(docs, query, Private, lower))
  {
    var all := FilterDocuments(docs, query, All, lower);
    var pub := FilterDocuments(docs, query, Public, lower);
    var priv := FilterDocuments(docs, query, Private, lower);
    forall d
      ensures (multiset(pub) + multiset(priv))[d] == multiset(all)[d]
    {
      if !Shown(d, query, All, lower) {
        assert !Shown(d, query, Public, lower) && !Shown(d, query, Private, lower);
      }
    }
  }
}
