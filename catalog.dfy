/** The gallery's catalog views: curated entries followed by uploaded ones,
    the category filter over them, the per-category counts shown on the
    filter buttons, and removal of an uploaded entry by id.

    The views take the curated list as a parameter; the gallery passes
    `Entries.Curated`. The general lemmas hold for any curated list without
    an uploaded-category entry, and the concrete counts are proved for
    `Curated` itself. */
module Catalog {
  import opened Entries

  /** The id of a filter button: everything, or one category. */
  datatype Filter = All | Only(tag: Tag)

  /** A filter button as rendered: its id, its label text and the count it shows. */
  datatype CategoryButton = CategoryButton(id: Filter, text: string, count: nat)

  /** The whole catalog: curated entries first, then uploaded ones. */
  function AllImages(curated: seq<Entry>, uploaded: seq<Entry>): seq<Entry> {
    curated + uploaded
  }

  /** The entries of `s` in category `t`, in their order in `s`. */
  function Matching(s: seq<Entry>, t: Tag): (r: seq<Entry>)
    ensures |r| <= |s|
    ensures forall i :: 0 <= i < |r| ==> r[i].category == t
  {
    if s == [] then []
    else (if s[0].category == t then [s[0]] else []) + Matching(s[1..], t)
  }

  /** An entry is kept exactly when it occurs in `s` with category `t`. */
  lemma {:induction false} MatchingMembers(s: seq<Entry>, t: Tag)
    ensures forall e :: e in Matching(s, t) <==> e in s && e.category == t
  {
    if s != [] {
      MatchingMembers(s[1..], t);
      assert s == [s[0]] + s[1..];
    }
  }

  /** Matching distributes over concatenation: the filter keeps the relative
      order of what it keeps. */
  lemma {:induction false} MatchingConcat(a: seq<Entry>, b: seq<Entry>, t: Tag)
    ensures Matching(a + b, t) == Matching(a, t) + Matching(b, t)
  {
    if a == [] {
      assert a + b == b;
    } else {
      assert (a + b)[1..] == a[1..] + b;
      MatchingConcat(a[1..], b, t);
    }
  }

  /** A sequence all in category `t` passes the filter unchanged. */
  lemma {:induction false} MatchingEvery(s: seq<Entry>, t: Tag)
    requires forall i :: 0 <= i < |s| ==> s[i].category == t
    ensures Matching(s, t) == s
  {
    if s != [] {
      MatchingEvery(s[1..], t);
    }
  }

  /** A sequence with nothing in category `t` yields nothing. */
  lemma {:induction false} MatchingNone(s: seq<Entry>, t: Tag)
    requires forall i :: 0 <= i < |s| ==> s[i].category != t
    ensures Matching(s, t) == []
  {
    if s != [] {
      MatchingNone(s[1..], t);
    }
  }

  /** The filtered view: the whole catalog for `All`, otherwise the entries
      of the selected category in catalog order. */
  function Filtered(curated: seq<Entry>, uploaded: seq<Entry>, f: Filter): (r: seq<Entry>)
    ensures f == All ==> r == curated + uploaded
    ensures forall e :: e in r <==> e in curated + uploaded && (f.All? || e.category == f.tag)
  {
    if f == All then AllImages(curated, uploaded)
    else
      MatchingMembers(AllImages(curated, uploaded), f.tag);
      Matching(AllImages(curated, uploaded), f.tag)
  }

  /** Uploads appear after the curated entries of a category view, in upload
      order, and never disturb the curated part of it. */
  lemma FilteredSplits(curated: seq<Entry>, uploaded: seq<Entry>, t: Tag)
    ensures Filtered(curated, uploaded, Only(t)) == Matching(curated, t) + Matching(uploaded, t)
  {
    MatchingConcat(curated, uploaded, t);
  }

  /** The count on the button with id `f`. `All` counts the whole catalog and
      `Uploaded` the uploaded list; the four curated categories are counted
      over the curated entries only. */
  function CountFor(curated: seq<Entry>, uploaded: seq<Entry>, f: Filter): nat {
    if f == All then |curated| + |uploaded|
    else if f.tag == Uploaded then |uploaded|
    else |Matching(curated, f.tag)|
  }

  /** The six filter buttons, in display order; the `Uploaded` one is listed
      even when its count is zero. */
  function Categories(curated: seq<Entry>, uploaded: seq<Entry>): (r: seq<CategoryButton>)
    ensures |r| == 6
    ensures forall k :: 0 <= k < 6 ==> r[k].count == CountFor(curated, uploaded, r[k].id)
    ensures r[0].id == All && r[1].id == Only(Male) && r[2].id == Only(Female)
    ensures r[3].id == Only(Pride) && r[4].id == Only(Art) && r[5].id == Only(Uploaded)
  {
    var ids := [All, Only(Male), Only(Female), Only(Pride), Only(Art), Only(Uploaded)];
    var texts := ["🌟 All", "👑 Boys", "👸 Girls", "👨‍👩‍👧‍👦 Family", "🎨 Art", "📤 My Photos"];
    seq(6, k requires 0 <= k < 6 => CategoryButton(ids[k], texts[k], CountFor(curated, uploaded, ids[k])))
  }

  /** No curated entry is in the `Uploaded` category. */
  predicate CuratedOnly(curated: seq<Entry>) {
    forall i :: 0 <= i < |curated| ==> curated[i].category != Uploaded
  }

  /** Every entry is one the upload pipeline made. */
  predicate AllUploaded(uploaded: seq<Entry>) {
    forall i :: 0 <= i < |uploaded| ==> IsUploadedEntry(uploaded[i])
  }

  /** Every button's count is the length of the view that button selects, as
      long as no curated entry and every upload is in the `Uploaded` category
      (which the upload pipeline guarantees). */
  lemma {:induction false} CountsMatchViews(curated: seq<Entry>, uploaded: seq<Entry>, f: Filter)
    requires CuratedOnly(curated) && AllUploaded(uploaded)
    ensures CountFor(curated, uploaded, f) == |Filtered(curated, uploaded, f)|
  {
    if f.Only? {
      var t := f.tag;
      FilteredSplits(curated, uploaded, t);
      if t == Uploaded {
        MatchingEvery(uploaded, t);
        MatchingNone(curated, t);
      } else {
        MatchingNone(uploaded, t);
      }
    }
  }

  /** Appending a committed batch adds its size to `All` and to `Uploaded`
      and leaves the four curated counts alone. */
  lemma CountsAfterAppend(curated: seq<Entry>, uploaded: seq<Entry>, batch: seq<Entry>)
    ensures CountFor(curated, uploaded + batch, All) == CountFor(curated, uploaded, All) + |batch|
    ensures CountFor(curated, uploaded + batch, Only(Uploaded))
            == CountFor(curated, uploaded, Only(Uploaded)) + |batch|
    ensures forall t :: t != Uploaded ==>
            CountFor(curated, uploaded + batch, Only(t)) == CountFor(curated, uploaded, Only(t))
  {
  }

  /** With no upload the buttons read All 4, one per curated category, and 0
      for My Photos. */
  lemma InitialCounts()
    ensures CountFor(Curated, [], All) == 4 && CountFor(Curated, [], Only(Uploaded)) == 0
    ensures forall t :: t != Uploaded ==> CountFor(Curated, [], Only(t)) == 1
  {
    forall t | t != Uploaded ensures CountFor(Curated, [], Only(t)) == 1 {
      assert Curated == [Curated[0]] + [Curated[1]] + [Curated[2]] + [Curated[3]];
      MatchingConcat([Curated[0]] + [Curated[1]] + [Curated[2]], [Curated[3]], t);
      MatchingConcat([Curated[0]] + [Curated[1]], [Curated[2]], t);
      MatchingConcat([Curated[0]], [Curated[1]], t);
    }
  }

  /** The uploaded list without the entries whose id is `id`, order kept. */
  function Without(s: seq<Entry>, id: Id): (r: seq<Entry>)
    ensures |r| <= |s|
    ensures forall i :: 0 <= i < |r| ==> r[i].id != id
  {
    if s == [] then []
    else (if s[0].id != id then [s[0]] else []) + Without(s[1..], id)
  }

  /** An entry survives removal exactly when it is in `s` under another id. */
  lemma {:induction false} WithoutMembers(s: seq<Entry>, id: Id)
    ensures forall e :: e in Without(s, id) <==> e in s && e.id != id
  {
    if s != [] {
      WithoutMembers(s[1..], id);
      assert s == [s[0]] + s[1..];
    }
  }

  /** Removing an id that no entry carries changes nothing. */
  lemma {:induction false} WithoutAbsent(s: seq<Entry>, id: Id)
    requires forall i :: 0 <= i < |s| ==> s[i].id != id
    ensures Without(s, id) == s
  {
    if s != [] {
      WithoutAbsent(s[1..], id);
    }
  }

  /** Removing the id of the entry at position `k` of a list with distinct ids
      drops exactly that entry and keeps the others in order. */
  lemma {:induction false} WithoutAt(s: seq<Entry>, k: nat)
    requires DistinctIds(s) && k < |s|
    ensures Without(s, s[k].id) == s[..k] + s[k + 1..]
  {
    var id := s[k].id;
    if k == 0 {
      WithoutAbsent(s[1..], id);
    } else {
      assert DistinctIds(s[1..]);
      assert s[1..][k - 1] == s[k];
      WithoutAt(s[1..], k - 1);
      assert s[1..][..k - 1] == s[1..k];
      assert s[1..][k..] == s[k + 1..];
      assert [s[0]] + s[1..k] == s[..k];
    }
  }

  /** Distinct ids split over a concatenation: each half is distinct and the
      halves share no id. */
  lemma DistinctConcat(a: seq<Entry>, b: seq<Entry>)
    ensures DistinctIds(a + b) <==>
      DistinctIds(a) && DistinctIds(b) &&
      forall i, j :: 0 <= i < |a| && 0 <= j < |b| ==> a[i].id != b[j].id
  {
    if DistinctIds(a) && DistinctIds(b) &&
       forall i, j :: 0 <= i < |a| && 0 <= j < |b| ==> a[i].id != b[j].id {
      forall i, j | 0 <= i < j < |a + b| ensures (a + b)[i].id != (a + b)[j].id {
        if i < |a| && j >= |a| {
          assert (a + b)[j] == b[j - |a|];
        }
      }
    }
    if DistinctIds(a + b) {
      forall i, j | 0 <= i < |a| && 0 <= j < |b| ensures a[i].id != b[j].id {
        assert (a + b)[i] == a[i] && (a + b)[|a| + j] == b[j];
      }
      forall i, j | 0 <= i < j < |a| ensures a[i].id != a[j].id {
        assert (a + b)[i] == a[i] && (a + b)[j] == a[j];
      }
      forall i, j | 0 <= i < j < |b| ensures b[i].id != b[j].id {
        assert (a + b)[|a| + i] == b[i] && (a + b)[|a| + j] == b[j];
      }
    }
  }

  /** Removal keeps the ids of a list distinct. */
  lemma {:induction false} WithoutKeepsDistinct(s: seq<Entry>, id: Id)
    requires DistinctIds(s)
    ensures DistinctIds(Without(s, id))
  {
    if s != [] {
      assert DistinctIds(s[1..]);
      WithoutKeepsDistinct(s[1..], id);
      var head := if s[0].id != id then [s[0]] else [];
      var rest := Without(s[1..], id);
      WithoutMembers(s[1..], id);
      forall i, j | 0 <= i < |head| && 0 <= j < |rest| ensures head[i].id != rest[j].id {
        assert rest[j] in s[1..];
      }
      DistinctConcat(head, rest);
    }
  }

  /** The category filter keeps the ids of a list distinct. */
  lemma {:induction false} MatchingKeepsDistinct(s: seq<Entry>, t: Tag)
    requires DistinctIds(s)
    ensures DistinctIds(Matching(s, t))
  {
    if s != [] {
      assert DistinctIds(s[1..]);
      MatchingKeepsDistinct(s[1..], t);
      var head := if s[0].category == t then [s[0]] else [];
      var rest := Matching(s[1..], t);
      MatchingMembers(s[1..], t);
      forall i, j | 0 <= i < |head| && 0 <= j < |rest| ensures head[i].id != rest[j].id {
        assert rest[j] in s[1..];
      }
      DistinctConcat(head, rest);
    }
  }

  /** Every view of a catalog with distinct ids has distinct ids, so the
      lightbox finds each entry of the grid at its own position. */
  lemma FilteredDistinct(curated: seq<Entry>, uploaded: seq<Entry>, f: Filter)
    requires DistinctIds(curated + uploaded)
    ensures DistinctIds(Filtered(curated, uploaded, f))
  {
    if f.Only? {
      MatchingKeepsDistinct(curated + uploaded, f.tag);
    }
  }

  /** The same for a catalog that also has a pending batch beside it. */
  lemma FilteredDistinctBeside(curated: seq<Entry>, uploaded: seq<Entry>, pending: seq<Entry>, f: Filter)
    requires DistinctIds(curated + uploaded + pending)
    ensures DistinctIds(Filtered(curated, uploaded, f))
  {
    DistinctConcat(curated + uploaded, pending);
    FilteredDistinct(curated, uploaded, f);
  }

  /** Removing from the middle part of a list with distinct ids keeps the
      whole list's ids distinct. */
  lemma WithoutInContext(front: seq<Entry>, s: seq<Entry>, back: seq<Entry>, id: Id)
    requires DistinctIds(front + s + back)
    ensures DistinctIds(front + Without(s, id) + back)
  {
    var w := Without(s, id);
    DistinctConcat(front + s, back);
    DistinctConcat(front, s);
    WithoutKeepsDistinct(s, id);
    WithoutMembers(s, id);
    forall i, j | 0 <= i < |front| && 0 <= j < |w| ensures front[i].id != w[j].id {
      assert w[j] in s;
    }
    DistinctConcat(front, w);
    forall i, j | 0 <= i < |front + w| && 0 <= j < |back| ensures (front + w)[i].id != back[j].id {
      if i < |front| {
        assert (front + w)[i] == (front + s)[i];
      } else {
        assert w[i - |front|] in s;
        var m :| 0 <= m < |s| && s[m] == w[i - |front|];
        assert (front + s)[|front| + m] == s[m];
      }
    }
    DistinctConcat(front + w, back);
  }

  /** Removing an uploaded entry: the others keep their order, and the `All`
      and `Uploaded` counts fall by exactly one. */
  lemma RemoveUploaded(curated: seq<Entry>, uploaded: seq<Entry>, k: nat)
    requires DistinctIds(uploaded) && k < |uploaded|
    ensures Without(uploaded, uploaded[k].id) == uploaded[..k] + uploaded[k + 1..]
    ensures CountFor(curated, Without(uploaded, uploaded[k].id), All) == CountFor(curated, uploaded, All) - 1
    ensures CountFor(curated, Without(uploaded, uploaded[k].id), Only(Uploaded))
            == CountFor(curated, uploaded, Only(Uploaded)) - 1
  {
    WithoutAt(uploaded, k);
  }
}
