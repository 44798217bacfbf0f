/** User search over the public profiles (searchUsersPublic) and the derivation of the
    search key when a public profile is saved (savePublicProfile), from firebase-service.js.
    The store's two queries are given their input as a listing of the collection: a sequence
    of (document id, document) pairs in the order the store returns them. */
module Search {
  import opened JsValues

  /** The first `n` elements: what a query with `.limit(n)` returns of its matches. */
  function Limit<T>(s: seq<T>, n: nat): (r: seq<T>)
    ensures |r| <= n && |r| <= |s| && r == s[..|r|]
    ensures |s| <= n ==> r == s
  {
    if |s| <= n then s else s[..n]
  }

  /** A listing of `coll`: each of its documents exactly once, under its own id. */
  predicate IsListing(listing: seq<(string, Doc)>, coll: map<string, Doc>) {
    && (forall i :: 0 <= i < |listing| ==> listing[i].0 in coll && coll[listing[i].0] == listing[i].1)
    && (forall i, j :: 0 <= i < j < |listing| ==> listing[i].0 != listing[j].0)
    && (forall id :: id in coll ==> exists i :: 0 <= i < |listing| && listing[i].0 == id)
  }

  /** `(query || '').trim().toLowerCase()`: the query without the white space at its ends,
      in lower case. */
  function NormalizeQuery(query: Option<string>): (q: string)
    ensures forall i :: 0 <= i < |q| ==> !('A' <= q[i] <= 'Z')
    ensures q == [] || (!IsSpace(q[0]) && !IsSpace(q[|q| - 1]))
    ensures exists k :: TrimmedAt(q, Lower(query.GetOr("")), k)
  {
    var s := query.GetOr("");
    var k :| TrimmedAt(Trim(s), s, k);
    LowerTrimmed(Trim(s), s, k);
    LowerCharSpace();
    Lower(Trim(s))
  }

  /** Lower-casing neither makes nor removes white space. */
  lemma LowerCharSpace()
    ensures forall c :: IsSpace(LowerChar(c)) <==> IsSpace(c)
  {
  }

  /** Lower-casing keeps an occurrence: a substring of `s` lower-cased occurs in `s`
      lower-cased at the same place. */
  lemma LowerOccurs(t: string, s: string, k: int)
    requires OccursAt(t, s, k)
    ensures OccursAt(Lower(t), Lower(s), k)
  {
    assert Lower(s)[k..k + |t|] == Lower(t);
  }

  /** Lower-casing keeps a trimmed infix trimmed: trimming and lower-casing commute. */
  lemma LowerTrimmed(t: string, s: string, k: int)
    requires TrimmedAt(t, s, k)
    ensures TrimmedAt(Lower(t), Lower(s), k)
  {
    LowerOccurs(t, s, k);
    LowerCharSpace();
    assert Lower(s)[..k] == Lower(s[..k]);
    assert Lower(s)[k + |t|..] == Lower(s[k + |t|..]);
  }

  /** `(d.displayName || '')` as a string, or None when it is a truthy non-string, on which
      `toLowerCase` throws. */
  function NameOf(d: Doc): (n: Option<string>)
    ensures !Truthy(Field(d, "displayName")) ==> n == Some("")
    ensures Field(d, "displayName").Str? ==> n == Some(Field(d, "displayName").s)
    ensures n.None? <==> Truthy(Field(d, "displayName")) && !Field(d, "displayName").Str?
  {
    match Field(d, "displayName")
    case Str(s) => Some(s)
    case v => if Truthy(v) then None else Some("")
  }

  /** The client-side test: the lower-cased display name contains the query. */
  predicate Matches(q: string, d: Doc) {
    NameOf(d).Some? && Contains(Lower(NameOf(d).value), q)
  }

  /** `{ uid: doc.id, ...doc.data() }`: a stored `uid` field wins over the document id. */
  function Hit(uid: string, d: Doc): (h: Doc)
    ensures h.Keys == d.Keys + {"uid"}
    ensures forall k :: k in d ==> h[k] == d[k]
    ensures "uid" !in d ==> h["uid"] == Str(uid)
  {
    map["uid" := Str(uid)] + d
  }

  function Hits(s: seq<(string, Doc)>): (r: seq<Doc>)
    ensures |r| == |s| && forall i :: 0 <= i < |s| ==> r[i] == Hit(s[i].0, s[i].1)
  {
    seq(|s|, i requires 0 <= i < |s| => Hit(s[i].0, s[i].1))
  }

  /** A document the range query `searchName >= q && searchName <= q + ''` matches:
      one whose `searchName` is a string in that range. */
  predicate InRange(q: string, e: (string, Doc)) {
    Field(e.1, "searchName").Str? && InPrefixRange(Field(e.1, "searchName").s, q)
  }

  /** The documents of the listing the range query matches, in listing order. */
  function RangeMatches(q: string, listing: seq<(string, Doc)>): (r: seq<(string, Doc)>)
    ensures forall e :: e in r <==> e in listing && InRange(q, e)
    ensures |r| <= |listing|
    decreases |listing|
  {
    if listing == [] then []
    else
      var init, last := listing[..|listing| - 1], listing[|listing| - 1];
      assert listing == init + [last];
      RangeMatches(q, init) + (if InRange(q, last) then [last] else [])
  }

  /** The `searchName` a range query orders by ("" for a document without one). */
  function SearchKey(e: (string, Doc)): string {
    if Field(e.1, "searchName").Str? then Field(e.1, "searchName").s else ""
  }

  predicate KeyLe(a: (string, Doc), b: (string, Doc)) {
    LexLe(SearchKey(a), SearchKey(b))
  }

  /** Each document's `searchName` is at most the next one's. */
  predicate ByKey(s: seq<(string, Doc)>) {
    forall i :: 0 <= i < |s| - 1 ==> KeyLe(s[i], s[i + 1])
  }

  /** Places `x` before the first document whose key is not below its own. */
  function InsertByKey(x: (string, Doc), s: seq<(string, Doc)>): (r: seq<(string, Doc)>)
    ensures multiset(r) == multiset(s) + multiset{x}
    ensures |r| == |s| + 1
    ensures r[0] == x || (s != [] && r[0] == s[0])
    ensures ByKey(s) ==> ByKey(r)
  {
    if s == [] then [x]
    else if KeyLe(x, s[0]) then [x] + s
    else
      LexLeTotal(SearchKey(x), SearchKey(s[0]));
      assert s == [s[0]] + s[1..];
      [s[0]] + InsertByKey(x, s[1..])
  }

  /** The range query's order: by `searchName`, and among equal names in listing order
      (the listing is in document-id order, the store's tie-break). */
  function SortByKey(s: seq<(string, Doc)>): (r: seq<(string, Doc)>)
    ensures multiset(r) == multiset(s) && |r| == |s|
    ensures ByKey(r)
  {
    if s == [] then []
    else
      assert s == [s[0]] + s[1..];
      InsertByKey(s[0], SortByKey(s[1..]))
  }

  /** In a list ordered by key, an earlier document's key is at most a later one's. */
  lemma {:induction false} ByKeyOrdered(s: seq<(string, Doc)>, i: int, j: int)
    requires ByKey(s) && 0 <= i <= j < |s|
    ensures KeyLe(s[i], s[j])
    decreases j - i
  {
    if i == j {
      LexLeRefl(SearchKey(s[i]));
    } else {
      ByKeyOrdered(s, i + 1, j);
      LexLeTrans(SearchKey(s[i]), SearchKey(s[i + 1]), SearchKey(s[j]));
    }
  }

  /** The snapshot of the prefix query: the in-range documents in `searchName` order,
      limited to 100. */
  function PrimarySnapshot(q: string, listing: seq<(string, Doc)>): (r: seq<(string, Doc)>)
    ensures |r| <= 100
    ensures forall e :: e in r ==> e in listing && InRange(q, e)
  {
    var sorted := SortByKey(RangeMatches(q, listing));
    forall e | e in sorted ensures e in listing && InRange(q, e) {
      assert e in multiset(sorted);
    }
    Limit(sorted, 100)
  }

  /** The prefix query's snapshot is in `searchName` order; it holds every in-range
      document when there are at most 100 of them, and 100 of them otherwise. */
  lemma PrimarySnapshotOrder(q: string, listing: seq<(string, Doc)>)
    ensures ByKey(PrimarySnapshot(q, listing))
    ensures |RangeMatches(q, listing)| <= 100 ==>
              multiset(PrimarySnapshot(q, listing)) == multiset(RangeMatches(q, listing))
    ensures |RangeMatches(q, listing)| > 100 ==> |PrimarySnapshot(q, listing)| == 100
  {
    var sorted := SortByKey(RangeMatches(q, listing));
    var r := PrimarySnapshot(q, listing);
    assert r == Limit(sorted, 100);
    forall i | 0 <= i < |r| - 1 ensures KeyLe(r[i], r[i + 1]) {
      assert r[i] == sorted[i] && r[i + 1] == sorted[i + 1];
    }
  }

  /** The 100 the prefix query keeps are the lowest by `searchName`: every in-range
      document it leaves out sorts at or after each one it keeps. */
  lemma PrimaryKeepsLowest(q: string, listing: seq<(string, Doc)>)
    ensures forall x, e ::
              x in PrimarySnapshot(q, listing) && e in listing && InRange(q, e) && e !in PrimarySnapshot(q, listing)
              ==> KeyLe(x, e)
  {
    var sorted := SortByKey(RangeMatches(q, listing));
    var r := PrimarySnapshot(q, listing);
    assert r == Limit(sorted, 100);
    forall x, e | x in r && e in listing && InRange(q, e) && e !in r ensures KeyLe(x, e) {
      assert e in multiset(sorted);
      var j :| 0 <= j < |sorted| && sorted[j] == e;
      var i :| 0 <= i < |r| && r[i] == x;
      assert j >= |r|;
      assert sorted[i] == x;
      ByKeyOrdered(sorted, i, j);
    }
  }

  /** The state of the fallback scan: what it pushed, and whether a document's display
      name threw and ended it. */
  datatype Scan = Scan(pushed: seq<Doc>, stopped: bool)

  /** The index of the first document whose display name throws, or the length when none
      does. */
  function FirstThrow(docs: seq<(string, Doc)>): (k: nat)
    ensures k <= |docs|
    ensures forall j :: 0 <= j < k ==> NameOf(docs[j].1).Some?
    ensures k < |docs| ==> NameOf(docs[k].1).None?
    ensures k < |docs| <==> exists e :: e in docs && NameOf(e.1).None?
    decreases |docs|
  {
    if docs == [] then 0
    else
      var init := docs[..|docs| - 1];
      var k := FirstThrow(init);
      assert forall j :: 0 <= j < |init| ==> init[j] == docs[j];
      if k < |init| then k
      else if NameOf(docs[|docs| - 1].1).None? then |init|
      else |docs|
  }

  /** The hits of the documents whose display name contains the query, in listing order. */
  function MatchingHits(q: string, docs: seq<(string, Doc)>): (r: seq<Doc>)
    ensures forall x :: x in r <==> exists e :: e in docs && Matches(q, e.1) && x == Hit(e.0, e.1)
    ensures |r| <= |docs|
    decreases |docs|
  {
    if docs == [] then []
    else
      var init, last := docs[..|docs| - 1], docs[|docs| - 1];
      assert docs == init + [last];
      MatchingHits(q, init) + (if Matches(q, last.1) then [Hit(last.0, last.1)] else [])
  }

  /** The fallback scan over the first 500 documents: pushes every document whose display
      name contains the query, until a display name throws; what was pushed before stays. */
  function FallbackScan(q: string, docs: seq<(string, Doc)>): (r: Scan)
    ensures r.stopped <==> FirstThrow(docs) < |docs|
    ensures r.pushed == MatchingHits(q, docs[..FirstThrow(docs)])
    ensures forall x :: x in r.pushed ==> Matches(q, x)
    ensures forall x :: x in r.pushed ==> exists e :: e in docs && x == Hit(e.0, e.1)
    ensures |r.pushed| <= |docs|
    decreases |docs|
  {
    if docs == [] then Scan([], false)
    else
      var init, last := docs[..|docs| - 1], docs[|docs| - 1];
      var prev := FallbackScan(q, init);
      MatchingHitsSound(q, docs, FirstThrow(docs));
      if prev.stopped then
        ThrowStays(docs);
        prev
      else
        ScanOneMore(q, docs);
        match NameOf(last.1)
        case None => Scan(prev.pushed, true)
        case Some(n) =>
          if Contains(Lower(n), q) then Scan(prev.pushed + [Hit(last.0, last.1)], false)
          else prev
  }

  /** Once a display name among the first documents throws, one more document changes
      neither where the first throw is nor what comes before it. */
  lemma ThrowStays(docs: seq<(string, Doc)>)
    requires docs != [] && FirstThrow(docs[..|docs| - 1]) < |docs| - 1
    ensures var k := FirstThrow(docs[..|docs| - 1]);
            FirstThrow(docs) == k && docs[..k] == docs[..|docs| - 1][..k]
  {
  }

  /** With no throw among the first documents, the last one decides: its display name
      throws and the scan stops before it, or it adds its hit when it matches. */
  lemma ScanOneMore(q: string, docs: seq<(string, Doc)>)
    requires docs != [] && FirstThrow(docs[..|docs| - 1]) == |docs| - 1
    ensures var init, last := docs[..|docs| - 1], docs[|docs| - 1];
            && init[..|init|] == init
            && (NameOf(last.1).None? ==> FirstThrow(docs) == |init| && docs[..|init|] == init)
            && (NameOf(last.1).Some? ==>
                  FirstThrow(docs) == |docs| && docs[..|docs|] == docs &&
                  MatchingHits(q, docs) ==
                    MatchingHits(q, init) + if Matches(q, last.1) then [Hit(last.0, last.1)] else [])
  {
    var init := docs[..|docs| - 1];
    assert init[..|init|] == init && docs[..|init|] == init && docs[..|docs|] == docs;
  }

  /** The matching hits of a prefix of `docs` match, come from `docs`, and are no more
      than its documents. */
  lemma MatchingHitsSound(q: string, docs: seq<(string, Doc)>, k: nat)
    requires k <= |docs|
    ensures var m := MatchingHits(q, docs[..k]);
            && (forall x :: x in m ==> Matches(q, x))
            && (forall x :: x in m ==> exists e :: e in docs && x == Hit(e.0, e.1))
            && |m| <= |docs|
  {
    var m := MatchingHits(q, docs[..k]);
    forall x | x in m ensures Matches(q, x) && exists e :: e in docs && x == Hit(e.0, e.1) {
      var e :| e in docs[..k] && Matches(q, e.1) && x == Hit(e.0, e.1);
      HitKeepsField(e.0, e.1, "displayName");
      assert NameOf(x) == NameOf(e.1);
      assert e in docs;
    }
  }

  /** `results.filter(...)` with the display-name test: None when a display name throws,
      which makes the whole search return []. */
  function FinalFilter(q: string, rs: seq<Doc>): (r: Option<seq<Doc>>)
    ensures r.None? <==> exists x :: x in rs && NameOf(x).None?
    ensures r.Some? ==> forall x :: x in r.value <==> x in rs && Matches(q, x)
    ensures r.Some? ==> |r.value| <= |rs|
    decreases |rs|
  {
    if rs == [] then Some([])
    else
      var init, last := rs[..|rs| - 1], rs[|rs| - 1];
      assert rs == init + [last];
      match FinalFilter(q, init)
      case None => None
      case Some(kept) =>
        if NameOf(last).None? then None
        else Some(kept + (if Matches(q, last) then [last] else []))
  }

  /** What the final filter leaves of `rs`: the matching results, or nothing when a
      display name throws. */
  function Filtered(q: string, rs: seq<Doc>): (out: seq<Doc>)
    ensures (forall x :: x in rs ==> NameOf(x).Some?) ==> forall x :: x in out <==> x in rs && Matches(q, x)
    ensures (exists x :: x in rs && NameOf(x).None?) ==> out == []
    ensures forall x :: x in out ==> x in rs && Matches(q, x)
    ensures |out| <= |rs|
  {
    match FinalFilter(q, rs)
    case None => []
    case Some(kept) => kept
  }

  /** The `results` array before the final filter: the prefix query's hits, or the
      fallback scan's when there are none. */
  function Gathered(q: string, listing: seq<(string, Doc)>): (results: seq<Doc>)
    ensures forall x :: x in results ==> exists e :: e in listing && x == Hit(e.0, e.1)
    ensures PrimarySnapshot(q, listing) != [] ==> results == Hits(PrimarySnapshot(q, listing))
    ensures PrimarySnapshot(q, listing) == [] ==> forall x :: x in results ==> Matches(q, x)
    ensures PrimarySnapshot(q, listing) == [] ==>
              forall x :: x in results ==> exists e :: e in Limit(listing, 500) && x == Hit(e.0, e.1)
    ensures PrimarySnapshot(q, listing) == [] ==>
              var docs := Limit(listing, 500);
              results == MatchingHits(q, docs[..FirstThrow(docs)])
    ensures |results| <= 500
  {
    var snap := PrimarySnapshot(q, listing);
    if snap == [] then
      var fb := Limit(listing, 500);
      assert forall e :: e in fb ==> e in listing;
      FallbackScan(q, fb).pushed
    else
      forall x | x in Hits(snap) ensures exists e :: e in listing && x == Hit(e.0, e.1) {
        var i :| 0 <= i < |snap| && Hits(snap)[i] == x;
        assert snap[i] in snap;
      }
      Hits(snap)
  }

  /** searchUsersPublic: an empty query finds nothing; otherwise what was gathered,
      filtered by display name, or nothing when a display name throws. */
  function SearchSpec(query: Option<string>, listing: seq<(string, Doc)>): (out: seq<Doc>)
    ensures NormalizeQuery(query) == "" ==> out == []
    ensures forall x :: x in out ==> Matches(NormalizeQuery(query), x)
    ensures forall x :: x in out ==> x in Gathered(NormalizeQuery(query), listing)
    ensures var q, g := NormalizeQuery(query), Gathered(NormalizeQuery(query), listing);
            q != "" && (forall x :: x in g ==> NameOf(x).Some?) ==> forall x :: x in out <==> x in g && Matches(q, x)
    ensures var q, g := NormalizeQuery(query), Gathered(NormalizeQuery(query), listing);
            q != "" && (exists x :: x in g && NameOf(x).None?) ==> out == []
    ensures var q, g := NormalizeQuery(query), Gathered(NormalizeQuery(query), listing);
            q != "" && FinalFilter(q, g).Some? ==> out == FinalFilter(q, g).value
    ensures |out| <= 500
  {
    var q := NormalizeQuery(query);
    if q == "" then [] else Filtered(q, Gathered(q, listing))
  }

  /** The fallback scan runs only when the prefix query found nothing: otherwise every
      result is a hit of the prefix query, and its `searchName` starts with the query. */
  lemma PrimaryHitsWin(query: Option<string>, listing: seq<(string, Doc)>)
    requires PrimarySnapshot(NormalizeQuery(query), listing) != []
    ensures var q := NormalizeQuery(query);
            forall x :: x in SearchSpec(query, listing) ==>
              && x in Hits(PrimarySnapshot(q, listing))
              && Field(x, "searchName").Str?
              && IsPrefix(q, Field(x, "searchName").s)
  {
    var q := NormalizeQuery(query);
    var snap := PrimarySnapshot(q, listing);
    var g := Gathered(q, listing);
    assert g == Hits(snap);
    forall x | x in SearchSpec(query, listing)
      ensures x in Hits(snap) && Field(x, "searchName").Str? && IsPrefix(q, Field(x, "searchName").s)
    {
      assert x in g;
      var i :| 0 <= i < |g| && g[i] == x;
      var e := snap[i];
      assert e in snap && InRange(q, e);
      HitKeepsField(e.0, e.1, "searchName");
      InPrefixRangeIsPrefix(Field(e.1, "searchName").s, q);
    }
  }

  /** A gathered document whose display name contains the query is found, unless some
      gathered display name throws. */
  lemma FoundIfGathered(query: Option<string>, listing: seq<(string, Doc)>, x: Doc)
    requires NormalizeQuery(query) != ""
    requires forall y :: y in Gathered(NormalizeQuery(query), listing) ==> NameOf(y).Some?
    requires x in Gathered(NormalizeQuery(query), listing) && Matches(NormalizeQuery(query), x)
    ensures x in SearchSpec(query, listing)
  {
  }

  /** Every matching hit has a display name that does not throw. */
  lemma MatchingHitsNamed(q: string, docs: seq<(string, Doc)>)
    ensures forall x :: x in MatchingHits(q, docs) ==> NameOf(x).Some?
  {
    forall x | x in MatchingHits(q, docs) ensures NameOf(x).Some? {
      var e :| e in docs && Matches(q, e.1) && x == Hit(e.0, e.1);
      HitKeepsField(e.0, e.1, "displayName");
    }
  }

  /** When the prefix query finds nothing and no display name among the first 500
      documents throws, the search finds every one of them whose display name contains the
      query. */
  lemma FallbackFindsEveryMatch(query: Option<string>, listing: seq<(string, Doc)>)
    requires NormalizeQuery(query) != ""
    requires PrimarySnapshot(NormalizeQuery(query), listing) == []
    requires FirstThrow(Limit(listing, 500)) == |Limit(listing, 500)|
    ensures forall e :: e in Limit(listing, 500) && Matches(NormalizeQuery(query), e.1) ==>
              Hit(e.0, e.1) in SearchSpec(query, listing)
  {
    var q := NormalizeQuery(query);
    var docs := Limit(listing, 500);
    assert docs[..FirstThrow(docs)] == docs;
    assert Gathered(q, listing) == MatchingHits(q, docs);
    MatchingHitsNamed(q, docs);
    forall e | e in docs && Matches(q, e.1) ensures Hit(e.0, e.1) in SearchSpec(query, listing) {
      HitKeepsField(e.0, e.1, "displayName");
      assert Hit(e.0, e.1) in MatchingHits(q, docs);
      FoundIfGathered(query, listing, Hit(e.0, e.1));
    }
  }

  /** When the prefix query's matches fit its limit of 100 and none of their display names
      throws, the search finds every document in range whose display name contains the
      query. */
  lemma PrimaryFindsEveryMatch(query: Option<string>, listing: seq<(string, Doc)>)
    requires NormalizeQuery(query) != ""
    requires |RangeMatches(NormalizeQuery(query), listing)| <= 100
    requires forall e :: e in RangeMatches(NormalizeQuery(query), listing) ==> NameOf(e.1).Some?
    ensures forall e :: e in listing && InRange(NormalizeQuery(query), e) && Matches(NormalizeQuery(query), e.1) ==>
              Hit(e.0, e.1) in SearchSpec(query, listing)
  {
    var q := NormalizeQuery(query);
    forall e | e in listing && InRange(q, e) && Matches(q, e.1) ensures Hit(e.0, e.1) in SearchSpec(query, listing) {
      RangeHitsGathered(q, listing);
      HitKeepsField(e.0, e.1, "displayName");
      FoundIfGathered(query, listing, Hit(e.0, e.1));
    }
  }

  /** When the range query's matches fit its limit, what is gathered is exactly their hits
      (in some order), so every in-range document is gathered. */
  lemma RangeHitsGathered(q: string, listing: seq<(string, Doc)>)
    requires |RangeMatches(q, listing)| <= 100
    requires forall e :: e in RangeMatches(q, listing) ==> NameOf(e.1).Some?
    ensures forall x :: x in Gathered(q, listing) ==> NameOf(x).Some?
    ensures forall e :: e in listing && InRange(q, e) ==> Hit(e.0, e.1) in Gathered(q, listing)
  {
    var m := RangeMatches(q, listing);
    var snap := PrimarySnapshot(q, listing);
    PrimarySnapshotOrder(q, listing);
    if m != [] {
      assert m[0] in multiset(snap);
      assert Gathered(q, listing) == Hits(snap);
      SnapshotHitsNamed(q, listing, snap);
      SnapshotHitsAll(q, listing, snap);
    }
  }

  lemma SnapshotHitsAll(q: string, listing: seq<(string, Doc)>, snap: seq<(string, Doc)>)
    requires multiset(snap) == multiset(RangeMatches(q, listing))
    ensures forall e :: e in listing && InRange(q, e) ==> Hit(e.0, e.1) in Hits(snap)
  {
    forall e | e in listing && InRange(q, e) ensures Hit(e.0, e.1) in Hits(snap) {
      assert e in multiset(snap);
      var i :| 0 <= i < |snap| && snap[i] == e;
      assert Hits(snap)[i] == Hit(e.0, e.1);
    }
  }

  lemma SnapshotHitsNamed(q: string, listing: seq<(string, Doc)>, snap: seq<(string, Doc)>)
    requires multiset(snap) == multiset(RangeMatches(q, listing))
    requires forall e :: e in RangeMatches(q, listing) ==> NameOf(e.1).Some?
    ensures forall x :: x in Hits(snap) ==> NameOf(x).Some?
  {
    forall x | x in Hits(snap) ensures NameOf(x).Some? {
      var i :| 0 <= i < |snap| && Hits(snap)[i] == x;
      assert snap[i] in multiset(RangeMatches(q, listing));
      HitKeepsField(snap[i].0, snap[i].1, "displayName");
    }
  }

  /** A hit keeps every field of its document other than `uid`. */
  lemma HitKeepsField(uid: string, d: Doc, k: string)
    requires k != "uid"
    ensures Field(Hit(uid, d), k) == Field(d, k)
  {
  }

  /** Every result is a document of the listing, tagged with its id. */
  lemma ResultsFromListing(query: Option<string>, listing: seq<(string, Doc)>)
    ensures forall x :: x in SearchSpec(query, listing) ==> exists e :: e in listing && x == Hit(e.0, e.1)
  {
    var g := Gathered(NormalizeQuery(query), listing);
    forall x | x in SearchSpec(query, listing) ensures exists e :: e in listing && x == Hit(e.0, e.1) {
      assert x in g;
    }
  }

  /** Over a listing of the collection, every result is a stored profile tagged with its
      id. */
  lemma ResultsFromCollection(query: Option<string>, listing: seq<(string, Doc)>, coll: map<string, Doc>)
    requires IsListing(listing, coll)
    ensures forall x :: x in SearchSpec(query, listing) ==> exists uid :: uid in coll && x == Hit(uid, coll[uid])
  {
    ResultsFromListing(query, listing);
    forall x | x in SearchSpec(query, listing) ensures exists uid :: uid in coll && x == Hit(uid, coll[uid]) {
      var e :| e in listing && x == Hit(e.0, e.1);
      var i :| 0 <= i < |listing| && listing[i] == e;
      assert e.0 in coll && coll[e.0] == e.1;
    }
  }

  // ---------------------------------------------------------------------------
  // savePublicProfile
  // ---------------------------------------------------------------------------

  /** The document savePublicProfile writes: the given fields, with `searchName` set to the
      trimmed, lower-cased display name when one is given; None when the display name is a
      truthy non-string, on which `trim` throws and nothing is written. */
  function ProfileToSave(publicData: Doc): (r: Option<Doc>)
    ensures r.None? <==> Truthy(Field(publicData, "displayName")) && !Field(publicData, "displayName").Str?
    ensures r.Some? ==> forall k :: k in publicData && k != "searchName" ==> k in r.value && r.value[k] == publicData[k]
    ensures r.Some? ==> r.value.Keys <= publicData.Keys + {"searchName"}
    ensures r.Some? && Truthy(Field(publicData, "displayName")) ==>
              "searchName" in r.value && r.value["searchName"] == Str(Lower(Trim(publicData["displayName"].s)))
    ensures r.Some? && !Truthy(Field(publicData, "displayName")) ==> r.value == publicData
  {
    match Field(publicData, "displayName")
    case Str(s) => if s == "" then Some(publicData) else Some(publicData["searchName" := Str(Lower(Trim(s)))])
    case v => if Truthy(v) then None else Some(publicData)
  }

  /** A prefix of a string occurring at `k` occurs at `k` too. */
  lemma PrefixOccurs(q: string, t: string, s: string, k: int)
    requires OccursAt(t, s, k) && IsPrefix(q, t)
    ensures OccursAt(q, s, k)
  {
    assert s[k..k + |q|] == s[k..k + |t|][..|q|];
  }

  /** A profile saved with a display name is matched by the prefix query for any query
      that starts its search key (short of the sentinel). */
  lemma SavedProfileInRange(uid: string, publicData: Doc, q: string)
    requires Field(publicData, "displayName").Str? && Field(publicData, "displayName").s != ""
    requires var key := Lower(Trim(Field(publicData, "displayName").s));
             IsPrefix(q, key) && (|key| == |q| || key[|q|] < HighSentinel)
    ensures ProfileToSave(publicData).Some?
    ensures InRange(q, (uid, ProfileToSave(publicData).value))
  {
    var key := Lower(Trim(Field(publicData, "displayName").s));
    assert Field(ProfileToSave(publicData).value, "searchName") == Str(key);
    PrefixIsInPrefixRange(key, q);
  }

  /** ... and its display name passes the client-side filter for that query: saving makes
      a profile findable by its name. */
  lemma SavedProfileMatches(uid: string, publicData: Doc, q: string)
    requires Field(publicData, "displayName").Str? && Field(publicData, "displayName").s != ""
    requires IsPrefix(q, Lower(Trim(Field(publicData, "displayName").s)))
    ensures ProfileToSave(publicData).Some?
    ensures Matches(q, Hit(uid, ProfileToSave(publicData).value))
  {
    var s := Field(publicData, "displayName").s;
    var p := ProfileToSave(publicData).value;
    var k :| TrimmedAt(Trim(s), s, k);
    LowerOccurs(Trim(s), s, k);
    PrefixOccurs(q, Lower(Trim(s)), Lower(s), k);
    assert Field(Hit(uid, p), "displayName") == Str(s);
    assert NameOf(Hit(uid, p)) == Some(s);
  }

  const Ana: Doc := map["displayName" := Str("Ana"), "searchName" := Str("ana")]
  const Bruno: Doc := map["displayName" := Str("Bruno"), "searchName" := Str("bruno")]

  lemma ExampleQuery()
    ensures NormalizeQuery(Some(" An ")) == "an"
  {
    assert IsSpace(" An "[0]) && " An "[1..] == "An ";
    assert !IsSpace("An "[0]);
    assert TrimStart(" An ") == "An ";
    assert IsSpace("An "[2]) && "An "[..2] == "An";
    assert !IsSpace("An"[1]);
    assert TrimEnd("An ") == "An";
    assert Trim(" An ") == "An";
    assert LowerChar('A') == 'a' && LowerChar('n') == 'n';
    assert Lower("An") == "an";
  }

  lemma ExampleRange()
    ensures RangeMatches("an", [("u1", Ana), ("u2", Bruno)]) == [("u1", Ana)]
  {
    var listing := [("u1", Ana), ("u2", Bruno)];
    assert InRange("an", listing[0]);
    assert !InRange("an", listing[1]);
    assert listing[..1] == [listing[0]];
    assert listing[..1][..0] == [];
  }

  lemma ExampleMatch()
    ensures Matches("an", Hit("u1", Ana))
  {
    assert Field(Hit("u1", Ana), "displayName") == Str("Ana");
    assert Lower("Ana") == "ana";
    assert OccursAt("an", "ana", 0);
  }

  lemma ExampleGathered()
    ensures Gathered("an", [("u1", Ana), ("u2", Bruno)]) == [Hit("u1", Ana)]
  {
    ExampleRange();
    assert PrimarySnapshot("an", [("u1", Ana), ("u2", Bruno)]) == [("u1", Ana)];
  }

  lemma ExampleFilter()
    ensures FinalFilter("an", [Hit("u1", Ana)]) == Some([Hit("u1", Ana)])
  {
    ExampleMatch();
    var rs := [Hit("u1", Ana)];
    assert rs[..|rs| - 1] == [] && rs[|rs| - 1] == Hit("u1", Ana);
    assert FinalFilter("an", []) == Some([]);
    assert [] + [Hit("u1", Ana)] == rs;
  }

  /** A worked search: the query " An " finds Ana by the prefix of her search key and not
      Bruno. */
  lemma SearchExample()
    ensures SearchSpec(Some(" An "), [("u1", Ana), ("u2", Bruno)]) == [Hit("u1", Ana)]
  {
    ExampleQuery();
    ExampleGathered();
    ExampleFilter();
  }
}
