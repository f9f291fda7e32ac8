/** The sidebar's views of the document list (src/components/Sidebar.tsx): the favorites,
    public and private counts and the five most recently edited documents. */
module Sidebar {
  import opened Types
  import opened Seqs
  import opened Sorting
  import Persistence

  /** `filter(doc => doc.isFavorite)`: the documents whose flag is set and true. */
  function FavoriteDocs(docs: seq<Document>): (r: seq<Document>)
    ensures forall d :: d in r <==> d in docs && d.isFavorite == Some(true)
    ensures IsSubsequence(r, docs)
    ensures forall d: Document :: d.isFavorite == Some(true) ==> multiset(r)[d] == multiset(docs)[d]
  {
    Filter(docs, (d: Document) => d.isFavorite == Some(true))
  }

  /** `filter(doc => !doc.isPublic && doc.createdBy === currentUserId)`. */
  function PrivateDocs(docs: seq<Document>, currentUserId: Id): (r: seq<Document>)
    ensures forall d :: d in r <==> d in docs && !d.isPublic && d.createdBy == currentUserId
    ensures IsSubsequence(r, docs)
    ensures forall d: Document :: !d.isPublic && d.createdBy == currentUserId ==> multiset(r)[d] == multiset(docs)[d]
  {
    Filter(docs, (d: Document) => !d.isPublic && d.createdBy == currentUserId)
  }

  /** The private view is the signed-in user's own documents that are not public; with the
      public view it covers every document the user may edit, and the two never overlap. */
  lemma PrivateIsOwnNonPublic(docs: seq<Document>, currentUserId: Id, d: Document)
    requires currentUserId != ""
    ensures d in PrivateDocs(docs, currentUserId) <==>
      d in Persistence.UserDocuments(Some(currentUserId), docs) && d !in Persistence.PublicDocuments(docs)
    ensures d in docs ==>
      (Persistence.CanEdit(Some(currentUserId), d) <==>
        d in PrivateDocs(docs, currentUserId) || d in Persistence.PublicDocuments(docs))
    ensures !(d in PrivateDocs(docs, currentUserId) && d in Persistence.PublicDocuments(docs))
  {
  }

  /** The comparator `b.lastEditedAt - a.lastEditedAt` as a sort key: newest first. */
  function NewestFirstKey(d: Document): int { -d.lastEditedAt }

  /** How many documents the recent list shows. */
  const RecentCount: nat := 5

  /** In a list sorted by `key`, an element left out of the first `n` has a key no smaller than
      any element kept. */
  lemma PrefixHoldsSmallestKeys<T>(sorted: seq<T>, key: T -> int, n: nat)
    requires SortedBy(sorted, key) && n <= |sorted|
    ensures forall d, e :: d in sorted && d !in sorted[..n] && e in sorted[..n] ==> key(e) <= key(d)
  {
    forall d, e | d in sorted && d !in sorted[..n] && e in sorted[..n]
      ensures key(e) <= key(d)
    {
      var i :| 0 <= i < |sorted| && sorted[i] == d;
      var j :| 0 <= j < n && sorted[..n][j] == e;
    }
  }

  /** The recent list: the documents sorted newest edit first, then the first five. */
  function RecentDocs(docs: seq<Document>): (r: seq<Document>)
    ensures |r| == if |docs| < RecentCount then |docs| else RecentCount
    ensures forall i, j :: 0 <= i < j < |r| ==> r[i].lastEditedAt >= r[j].lastEditedAt
    ensures multiset(r) <= multiset(docs)
    ensures forall d, e :: d in docs && d !in r && e in r ==> d.lastEditedAt <= e.lastEditedAt
  {
    var sorted := SortBy(docs, NewestFirstKey);
    var r := Take(sorted, RecentCount);
    SortByMembers(docs, NewestFirstKey);
    PrefixHoldsSmallestKeys(sorted, NewestFirstKey, |r|);
    assert r == sorted[..|r|];
    assert sorted == r + sorted[|r|..];
    assert multiset(sorted) == multiset(r) + multiset(sorted[|r|..]);
    r
  }
}
