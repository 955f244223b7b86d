/** Lightbox navigation: locating the selected entry in the filtered list by
    id and stepping to the next or previous entry with wrap-around, plus the
    key bindings that drive it. Out-of-range indices read as `undefined` in
    the component, which closes the lightbox; here that is `None`. */
module Lightbox {
  import opened Entries

  datatype Direction = Next | Prev

  datatype Key = Escape | ArrowRight | ArrowLeft | OtherKey

  /** The position of the first entry of `s` carrying `id`, or -1 when there is none. */
  function IndexOf(s: seq<Entry>, id: Id): (r: int)
    ensures -1 <= r < |s|
    ensures r == -1 ==> forall j :: 0 <= j < |s| ==> s[j].id != id
    ensures r >= 0 ==> s[r].id == id && forall j :: 0 <= j < r ==> s[j].id != id
  {
    if s == [] then -1
    else if s[0].id == id then 0
    else
      var k := IndexOf(s[1..], id);
      if k == -1 then -1 else k + 1
  }

  /** In a list with distinct ids, an entry's id leads back to its own position. */
  lemma IndexOfDistinct(s: seq<Entry>, k: nat)
    requires DistinctIds(s) && k < |s|
    ensures IndexOf(s, s[k].id) == k
  {
  }

  /** The entry the lightbox shows after one step from `current`. The step
      is taken from the first position carrying `current`'s id: forward it
      wraps from the last entry to the first, backward from the first to the
      last. A position outside the list yields `None`: stepping backward from
      an entry that is not in the list, or stepping at all in an empty list. */
  function Navigate(s: seq<Entry>, current: Entry, d: Direction): (r: Option<Entry>)
    ensures r.Some? ==> r.value in s
    ensures (exists k :: 0 <= k < |s| && s[k].id == current.id) ==> r.Some?
  {
    var i := IndexOf(s, current.id);
    var n := |s|;
    var j := if d == Next then (if n == 0 then -1 else (i + 1) % n)
             else (if i == 0 then n - 1 else i - 1);
    if 0 <= j < n then Some(s[j]) else None
  }

  /** With the selection at position `k` of a list with distinct ids, next
      moves to `k + 1` except from the last entry, which wraps to the first;
      previous moves to `k - 1` except from the first, which wraps to the last. */
  lemma NavigateSteps(s: seq<Entry>, k: nat)
    requires DistinctIds(s) && k < |s|
    ensures Navigate(s, s[k], Next) == Some(s[if k + 1 == |s| then 0 else k + 1])
    ensures Navigate(s, s[k], Prev) == Some(s[if k == 0 then |s| - 1 else k - 1])
  {
    IndexOfDistinct(s, k);
    if k + 1 < |s| {
      ModBelow(k + 1, |s|);
    } else {
      ModUnique(k + 1, |s|, 1, 0);
    }
  }

  /** The same in modular form: with the selection at position `k` of a list
      of length `n`, next is at `(k + 1) mod n` and previous at
      `(k - 1 + n) mod n`. */
  lemma NavigateFrom(s: seq<Entry>, k: nat)
    requires DistinctIds(s) && k < |s|
    ensures Navigate(s, s[k], Next) == Some(s[(k + 1) % |s|])
    ensures Navigate(s, s[k], Prev) == Some(s[(k - 1 + |s|) % |s|])
  {
    NavigateSteps(s, k);
    var n := |s|;
    if k + 1 < n {
      ModBelow(k + 1, n);
    } else {
      ModUnique(k + 1, n, 1, 0);
    }
    if k == 0 {
      ModBelow(n - 1, n);
    } else {
      ModShift(k - 1, n);
      ModBelow(k - 1, n);
    }
  }

  /** `r` is what one step in direction `d` from `current` must show: the
      modular neighbour of every position `current` sits at in `s`. */
  predicate SteppedFrom(s: seq<Entry>, current: Entry, d: Direction, r: Option<Entry>) {
    forall k :: 0 <= k < |s| && s[k] == current ==>
      r == Some(s[if d == Next then (k + 1) % |s| else (k - 1 + |s|) % |s|])
  }

  /** Wherever the selection sits in a list with distinct ids, one step in
      direction `d` lands at the modular neighbour of that position. */
  lemma NavigateAnywhere(s: seq<Entry>, current: Entry, d: Direction)
    requires DistinctIds(s)
    ensures SteppedFrom(s, current, d, Navigate(s, current, d))
  {
    forall k | 0 <= k < |s| && s[k] == current
      ensures Navigate(s, current, d) == Some(s[if d == Next then (k + 1) % |s| else (k - 1 + |s|) % |s|])
    {
      NavigateFrom(s, k);
    }
  }

  /** Previous undoes next and next undoes previous. */
  lemma NextPrevInverse(s: seq<Entry>, k: nat)
    requires DistinctIds(s) && k < |s|
    ensures Navigate(s, Navigate(s, s[k], Next).value, Prev) == Some(s[k])
    ensures Navigate(s, Navigate(s, s[k], Prev).value, Next) == Some(s[k])
  {
    var n := |s|;
    NavigateSteps(s, k);
    NavigateSteps(s, if k + 1 == n then 0 else k + 1);
    NavigateSteps(s, if k == 0 then n - 1 else k - 1);
  }

  /** In a one-entry list both directions keep the same entry. */
  lemma SingleEntry(s: seq<Entry>, d: Direction)
    requires |s| == 1
    ensures Navigate(s, s[0], d) == Some(s[0])
  {
  }

  /** An entry no longer in the list: next restarts at the first entry,
      previous closes the lightbox. */
  lemma NavigateStale(s: seq<Entry>, current: Entry)
    requires forall j :: 0 <= j < |s| ==> s[j].id != current.id
    ensures Navigate(s, current, Next) == if s == [] then None else Some(s[0])
    ensures Navigate(s, current, Prev) == None
  {
  }

  /** The selection after `steps` forward steps from `current`. */
  function Advance(s: seq<Entry>, current: Entry, steps: nat): Option<Entry>
    decreases steps
  {
    if steps == 0 then Some(current)
    else match Navigate(s, current, Next)
      case None => None
      case Some(e) => Advance(s, e, steps - 1)
  }

  /** Stepping forward `steps` times from position `k` lands at
      `(k + steps) mod n`; in particular `n` steps come back to the start. */
  lemma {:induction false} AdvanceFrom(s: seq<Entry>, k: nat, steps: nat)
    requires DistinctIds(s) && k < |s|
    ensures Advance(s, s[k], steps) == Some(s[(k + steps) % |s|])
    decreases steps
  {
    var n := |s|;
    if steps == 0 {
      ModBelow(k, n);
    } else {
      NavigateSteps(s, k);
      if k + 1 < n {
        AdvanceFrom(s, k + 1, steps - 1);
      } else {
        AdvanceFrom(s, 0, steps - 1);
        ModShift(steps - 1, n);
      }
    }
  }

  /** `a mod n` is `a` itself below `n`. */
  lemma ModBelow(a: int, n: int)
    requires 0 <= a < n
    ensures a % n == a
  {
  }

  lemma MulAtLeast(d: int, n: int)
    requires d >= 1 && n > 0
    ensures d * n >= n
  {
  }

  /** The remainder is the unique `r` with `x == q * n + r` and `0 <= r < n`. */
  lemma ModUnique(x: int, n: int, q: int, r: int)
    requires n > 0 && 0 <= r < n && x == q * n + r
    ensures x % n == r
  {
    var q', r' := x / n, x % n;
    assert x == q' * n + r';
    assert (q - q') * n == r' - r;
    if q > q' {
      MulAtLeast(q - q', n);
    } else if q < q' {
      MulAtLeast(q' - q, n);
    }
  }

  /** Adding `n` does not change a remainder modulo `n`. */
  lemma ModShift(x: int, n: int)
    requires x >= 0 && n > 0
    ensures (x + n) % n == x % n
  {
    ModUnique(x + n, n, x / n + 1, x % n);
  }

  /** The selection after a key press: keys do nothing while the lightbox
      is closed; Escape closes it and the arrows step through the list. */
  function KeyPress(s: seq<Entry>, selected: Option<Entry>, key: Key): (r: Option<Entry>)
    ensures selected == None ==> r == None
    ensures selected.Some? && key == Escape ==> r == None
    ensures key == OtherKey ==> r == selected
    ensures selected.Some? && key in {ArrowLeft, ArrowRight} && r.Some? ==> r.value in s
  {
    match selected
    case None => None
    case Some(current) =>
      match key
      case Escape => None
      case ArrowRight => Navigate(s, current, Next)
      case ArrowLeft => Navigate(s, current, Prev)
      case OtherKey => selected
  }

  /** Opening the third of four entries and pressing next three times shows
      the second entry. */
  lemma ThreeStepsFromThird(s: seq<Entry>)
    requires DistinctIds(s) && |s| == 4
    ensures Advance(s, s[2], 3) == Some(s[1])
  {
    AdvanceFrom(s, 2, 3);
  }
}
