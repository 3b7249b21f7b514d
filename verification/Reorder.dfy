/** Artboard order on the design canvas: the live drag, merging a saved order with the source order, and
    what the section shows over time. */
module Reorder {
  import opened Domain

  type Id = string

  ghost predicate Distinct(s: seq<Id>) {
    forall i, j :: 0 <= i < j < |s| ==> s[i] != s[j]
  }

  ghost predicate SameIds(a: seq<Id>, b: seq<Id>) {
    forall k :: k in a <==> k in b
  }

  /** The elements of `s` that are in `t`, in the order of `s`. */
  function Within(s: seq<Id>, t: seq<Id>): seq<Id> {
    if s == [] then [] else if s[0] in t then [s[0]] + Within(s[1..], t) else Within(s[1..], t)
  }

  /** The elements of `s` that are not in `t`, in the order of `s`. */
  function Outside(s: seq<Id>, t: seq<Id>): seq<Id> {
    if s == [] then [] else if s[0] in t then Outside(s[1..], t) else [s[0]] + Outside(s[1..], t)
  }

  lemma {:induction false} WithinIsFilter(s: seq<Id>, t: seq<Id>)
    ensures forall k :: k in Within(s, t) <==> k in s && k in t
    ensures Distinct(s) ==> Distinct(Within(s, t))
  {
    if s == [] {
    } else {
      WithinIsFilter(s[1..], t);
      assert s == [s[0]] + s[1..];
      if Distinct(s) { assert s[0] !in s[1..]; }
    }
  }

  lemma {:induction false} OutsideIsFilter(s: seq<Id>, t: seq<Id>)
    ensures forall k :: k in Outside(s, t) <==> k in s && k !in t
    ensures Distinct(s) ==> Distinct(Outside(s, t))
  {
    if s == [] {
    } else {
      OutsideIsFilter(s[1..], t);
      assert s == [s[0]] + s[1..];
      if Distinct(s) { assert s[0] !in s[1..]; }
    }
  }

  lemma {:induction false} WithinAll(s: seq<Id>, t: seq<Id>)
    requires forall k :: k in s ==> k in t
    ensures Within(s, t) == s && Outside(s, t) == []
  {
    if s == [] {
    } else {
      assert s == [s[0]] + s[1..] && s[0] in s;
      WithinAll(s[1..], t);
    }
  }

  lemma {:induction false} WithinNone(s: seq<Id>, t: seq<Id>)
    requires forall k :: k in s ==> k !in t
    ensures Within(s, t) == [] && Outside(s, t) == s
  {
    if s == [] {
    } else {
      assert s == [s[0]] + s[1..] && s[0] in s;
      WithinNone(s[1..], t);
    }
  }

  lemma {:induction false} WithinOfSum(a: seq<Id>, b: seq<Id>, t: seq<Id>)
    ensures Within(a + b, t) == Within(a, t) + Within(b, t)
  {
    if a == [] {
      assert a + b == b;
    } else {
      assert (a + b)[0] == a[0] && (a + b)[1..] == a[1..] + b;
      WithinOfSum(a[1..], b, t);
    }
  }

  /** Filtering depends only on which elements of `s` are in the other list. */
  lemma {:induction false} SameMembersSameFilter(s: seq<Id>, t: seq<Id>, t': seq<Id>)
    requires forall k :: k in s ==> (k in t <==> k in t')
    ensures Within(s, t) == Within(s, t') && Outside(s, t) == Outside(s, t')
  {
    if s == [] {
    } else {
      assert s == [s[0]] + s[1..] && s[0] in s;
      SameMembersSameFilter(s[1..], t, t');
    }
  }

  // ---------------------------------------------------------------- merging

  /** The shown order: what was saved and still exists, then what is new, in source order. */
  function Merge(saved: seq<Id>, src: seq<Id>): seq<Id> {
    var kept := Within(saved, src);
    kept + Outside(src, kept)
  }

  lemma DistinctSum(a: seq<Id>, b: seq<Id>)
    requires Distinct(a) && Distinct(b) && forall k :: k in a ==> k !in b
    ensures Distinct(a + b)
  {
    forall i, j | 0 <= i < j < |a + b| ensures (a + b)[i] != (a + b)[j] {
      if i < |a| <= j {
        assert a[i] in a && b[j - |a|] in b;
      }
    }
  }

  /** The shown order shows every source id once. */
  lemma MergeIsPermutation(saved: seq<Id>, src: seq<Id>)
    requires Distinct(saved) && Distinct(src)
    ensures Distinct(Merge(saved, src)) && SameIds(Merge(saved, src), src)
  {
    var kept := Within(saved, src);
    WithinIsFilter(saved, src);
    OutsideIsFilter(src, kept);
    DistinctSum(kept, Outside(src, kept));
  }

  /** Among the ids that were saved, the shown order is the saved one; among the rest, the source one. */
  lemma MergeKeepsBothOrders(saved: seq<Id>, src: seq<Id>)
    ensures Within(Merge(saved, src), saved) == Within(saved, src)
    ensures Outside(Merge(saved, src), saved) == Outside(src, saved)
  {
    var kept := Within(saved, src);
    var added := Outside(src, kept);
    WithinIsFilter(saved, src);
    OutsideIsFilter(src, kept);
    WithinOfSum(kept, added, saved);
    OutsideOfSum(kept, added, saved);
    WithinAll(kept, saved);
    WithinNone(added, saved);
    SameMembersSameFilter(src, kept, saved);
  }

  /** Every id that was saved stands before every id that was not. */
  lemma NewIdsComeLast(saved: seq<Id>, src: seq<Id>, i: nat, j: nat)
    requires i < j < |Merge(saved, src)| && Merge(saved, src)[j] in saved
    ensures Merge(saved, src)[i] in saved
  {
    var kept := Within(saved, src);
    WithinIsFilter(saved, src);
    if j < |kept| {
      assert Merge(saved, src)[i] == kept[i] && kept[i] in kept;
    } else {
      AddedWasNotSaved(saved, src, j);
    }
  }

  lemma AddedWasNotSaved(saved: seq<Id>, src: seq<Id>, j: nat)
    requires |Within(saved, src)| <= j < |Merge(saved, src)|
    ensures Merge(saved, src)[j] !in saved
  {
    var kept := Within(saved, src);
    var added := Outside(src, kept);
    WithinIsFilter(saved, src);
    OutsideIsFilter(src, kept);
    assert Merge(saved, src)[j] == added[j - |kept|] && added[j - |kept|] in added;
  }

  lemma {:induction false} OutsideOfSum(a: seq<Id>, b: seq<Id>, t: seq<Id>)
    ensures Outside(a + b, t) == Outside(a, t) + Outside(b, t)
  {
    if a == [] {
      assert a + b == b;
    } else {
      assert (a + b)[0] == a[0] && (a + b)[1..] == a[1..] + b;
      OutsideOfSum(a[1..], b, t);
    }
  }

  /** An order of exactly the source ids is shown as it is. */
  lemma MergeOfFullOrder(order: seq<Id>, src: seq<Id>)
    requires SameIds(order, src)
    ensures Merge(order, src) == order
  {
    WithinAll(order, src);
    WithinAll(src, order);
  }

  lemma MergeIsIdempotent(saved: seq<Id>, src: seq<Id>)
    ensures Merge(Merge(saved, src), src) == Merge(saved, src)
  {
    var kept := Within(saved, src);
    WithinIsFilter(saved, src);
    OutsideIsFilter(src, kept);
    MergeOfFullOrder(Merge(saved, src), src);
  }

  // ---------------------------------------------------------------- the drag

  function IndexOf(s: seq<Id>, id: Id): int {
    if s == [] then -1 else if s[0] == id then 0
    else
      var i := IndexOf(s[1..], id);
      if i < 0 then -1 else i + 1
  }

  function Inserted(others: seq<Id>, at: nat, id: Id): seq<Id> {
    if at <= |others| then others[..at] + [id] + others[at..] else others + [id]
  }

  /** The original order with `id` taken out and put back at a slot. */
  function Moved(order: seq<Id>, id: Id, slot: nat): seq<Id> {
    Inserted(Outside(order, [id]), slot, id)
  }

  lemma {:induction false} IndexIsFirst(s: seq<Id>, id: Id)
    ensures IndexOf(s, id) < 0 <==> id !in s
    ensures IndexOf(s, id) >= 0 ==> IndexOf(s, id) < |s| && s[IndexOf(s, id)] == id && id !in s[..IndexOf(s, id)]
  {
    if s == [] {
    } else {
      IndexIsFirst(s[1..], id);
      assert s == [s[0]] + s[1..];
      var i := IndexOf(s, id);
      if i > 0 { assert s[..i] == [s[0]] + s[1..][..i - 1]; }
    }
  }

  lemma IndexIsUnique(s: seq<Id>, id: Id, i: nat)
    requires Distinct(s) && i < |s| && s[i] == id
    ensures IndexOf(s, id) == i
  {
    IndexIsFirst(s, id);
  }

  lemma {:induction false} TakenOut(order: seq<Id>, id: Id, i: nat)
    requires Distinct(order) && i < |order| && order[i] == id
    ensures Outside(order, [id]) == order[..i] + order[i + 1..]
  {
    if i == 0 {
      WithinNone(order[1..], [id]);
      assert order == [order[0]] + order[1..];
    } else {
      TakenOut(order[1..], id, i - 1);
      assert order[..i] + order[i + 1..] == [order[0]] + (order[1..][..i - 1] + order[1..][i..]);
    }
  }

  /** Moving an id keeps every id once, puts the moved one at the slot, and keeps the others in order. */
  lemma MovedIsReordering(order: seq<Id>, id: Id, slot: nat)
    requires Distinct(order) && id in order && slot < |order|
    ensures Distinct(Moved(order, id, slot)) && SameIds(Moved(order, id, slot), order)
    ensures |Moved(order, id, slot)| == |order| && Moved(order, id, slot)[slot] == id
    ensures Outside(Moved(order, id, slot), [id]) == Outside(order, [id])
  {
    IndexIsFirst(order, id);
    TakenOut(order, id, IndexOf(order, id));
    OutsideIsFilter(order, [id]);
    PutBack(Outside(order, [id]), slot, id);
    TakenOut(Moved(order, id, slot), id, slot);
  }

  lemma PutBack(others: seq<Id>, slot: nat, id: Id)
    requires Distinct(others) && id !in others && slot <= |others|
    ensures var moved := Inserted(others, slot, id);
      && Distinct(moved) && |moved| == |others| + 1 && moved[slot] == id
      && (forall k :: k in moved <==> k in others || k == id)
      && moved[..slot] + moved[slot + 1..] == others
  {
    var left, right := others[..slot], others[slot..];
    assert others == left + right;
    forall k | k in left ensures k !in [id] + right {
      var i :| 0 <= i < |left| && left[i] == k;
      assert others[i] == k && k in others;
      forall j | 0 <= j < |right| ensures right[j] != k {
        assert right[j] == others[slot + j];
      }
    }
    DistinctSum([id], right);
    DistinctSum(left, [id] + right);
    assert Inserted(others, slot, id) == left + ([id] + right);
  }

  lemma MovedHome(order: seq<Id>, id: Id)
    requires Distinct(order) && id in order
    ensures 0 <= IndexOf(order, id) < |order| && Moved(order, id, IndexOf(order, id)) == order
  {
    IndexIsFirst(order, id);
    TakenOut(order, id, IndexOf(order, id));
    PutBackHome(order, id, IndexOf(order, id));
  }

  lemma PutBackHome(order: seq<Id>, id: Id, i: nat)
    requires i < |order| && order[i] == id
    ensures Inserted(order[..i] + order[i + 1..], i, id) == order
  {
    var others := order[..i] + order[i + 1..];
    assert others[..i] == order[..i] && others[i..] == order[i + 1..];
  }

  function Distance(a: real, b: real): real { if a >= b then a - b else b - a }

  /** The slot whose position is nearest, the first of them in a tie. */
  ghost predicate IsNearest(slotXs: seq<real>, cur: real, slot: int) {
    && 0 <= slot < |slotXs|
    && (forall i :: 0 <= i < |slotXs| ==> Distance(slotXs[slot], cur) <= Distance(slotXs[i], cur))
    && (forall i :: 0 <= i < slot ==> Distance(slotXs[slot], cur) < Distance(slotXs[i], cur))
  }

  lemma DistanceIsSymmetric(a: real, b: real)
    ensures Distance(a, b) == Distance(b, a) >= 0.0
    ensures Distance(a, b) == a - b || Distance(a, b) == b - a
  {
  }

  lemma NearestIsUnique(slotXs: seq<real>, cur: real, a: int, b: int)
    requires IsNearest(slotXs, cur, a) && IsNearest(slotXs, cur, b)
    ensures a == b
  {
    assert Distance(slotXs[a], cur) <= Distance(slotXs[b], cur) <= Distance(slotXs[a], cur);
  }

  method Nearest(slotXs: seq<real>, cur: real) returns (nearest: int)
    requires slotXs != []
    ensures IsNearest(slotXs, cur, nearest)
  {
    nearest := 0;
    var best: Option<real> := None;
    for i := 0 to |slotXs|
      invariant i == 0 ==> best.None? && nearest == 0
      invariant i > 0 ==> 0 <= nearest < i && best == Some(Distance(slotXs[nearest], cur))
      invariant forall j :: 0 <= j < i ==> best.value <= Distance(slotXs[j], cur)
      invariant forall j :: 0 <= j < nearest ==> best.value < Distance(slotXs[j], cur)
    {
      var d := Distance(slotXs[i], cur);
      if best.None? || d < best.value {
        best := Some(d);
        nearest := i;
      }
    }
  }

  /** The ids joined by bars, which is how two orders are compared when the card is dropped. */
  function Joined(order: seq<Id>): string {
    if order == [] then "" else if |order| == 1 then order[0] else order[0] + "|" + Joined(order[1..])
  }

  /** The saved order after a drop. */
  function Dropped(saved: seq<Id>, order: seq<Id>, live: seq<Id>): seq<Id> {
    if Joined(live) != Joined(order) then live else saved
  }

  lemma CardIsAt(order: seq<Id>, id: Id, slot: nat)
    requires Distinct(order) && id in order && slot < |order|
    ensures IndexOf(Moved(order, id, slot), id) == slot
  {
    MovedIsReordering(order, id, slot);
    IndexIsUnique(Moved(order, id, slot), id, slot);
  }

  /** One drag: the card `id` of a section shown in `order`, whose slots stand at `slotXs`. */
  class Drag {
    const order: seq<Id>
    const id: Id
    const slotXs: seq<real>
    const startIdx: int
    var liveOrder: seq<Id>

    ghost predicate Valid()
      reads this
    {
      && Distinct(order) && id in order && |slotXs| == |order|
      && startIdx == IndexOf(order, id) && 0 <= startIdx < |order|
      && exists slot: nat :: slot < |order| && liveOrder == Moved(order, id, slot)
    }

    constructor (order: seq<Id>, id: Id, slotXs: seq<real>)
      requires Distinct(order) && id in order && |slotXs| == |order|
      ensures Valid() && liveOrder == order
      ensures this.order == order && this.id == id && this.slotXs == slotXs
    {
      this.order, this.id, this.slotXs, this.startIdx := order, id, slotXs, IndexOf(order, id);
      liveOrder := order;
      MovedHome(order, id);
    }

    /** After any history, the live order depends only on where the pointer is now: it is the
        original order with the card put at the nearest slot. */
    method Move(dx: real)
      requires Valid()
      modifies this
      ensures Valid()
      ensures forall slot: nat :: IsNearest(slotXs, slotXs[startIdx] + dx, slot) ==> liveOrder == Moved(order, id, slot)
    {
      var cur := slotXs[startIdx] + dx;
      var nearest := Nearest(slotXs, cur);
      ghost var was: nat :| was < |order| && liveOrder == Moved(order, id, was);
      CardIsAt(order, id, was);
      if IndexOf(liveOrder, id) != nearest {
        liveOrder := Outside(order, [id]);
        liveOrder := Inserted(liveOrder, nearest, id);
      }
      assert nearest < |order| && liveOrder == Moved(order, id, nearest);
      forall slot: nat | IsNearest(slotXs, cur, slot) ensures slot == nearest {
        NearestIsUnique(slotXs, cur, slot, nearest);
      }
    }

    method Drop(saved: seq<Id>) returns (saved': seq<Id>)
      requires Valid()
      ensures saved' == Dropped(saved, order, liveOrder)
      ensures liveOrder == order ==> saved' == saved
    {
      if Joined(liveOrder) != Joined(order) {
        saved' := liveOrder;
      } else {
        saved' := saved;
      }
    }
  }

  /** A card brought back over its own place leaves the order as it was. */
  lemma BackHome(order: seq<Id>, id: Id, slotXs: seq<real>, home: nat, slot: nat)
    requires Distinct(order) && id in order && |slotXs| == |order|
    requires forall i, j :: 0 <= i < j < |slotXs| ==> slotXs[i] < slotXs[j]
    requires home == IndexOf(order, id) && home < |slotXs| && IsNearest(slotXs, slotXs[home], slot)
    ensures Moved(order, id, slot) == order
  {
    MovedHome(order, id);
    assert Distance(slotXs[slot], slotXs[home]) <= Distance(slotXs[home], slotXs[home]) == 0.0;
  }

  // ---------------------------------------------------------------- dropping, and whole sessions

  ghost predicate NoBars(order: seq<Id>) {
    forall k :: k in order ==> '|' !in k
  }

  /** Where the first bar of a joined text stands. */
  lemma FirstBar(a: seq<Id>)
    requires NoBars(a) && |a| >= 2
    ensures var j := Joined(a); |a[0]| < |j| && j[|a[0]|] == '|' && (forall i :: 0 <= i < |a[0]| ==> j[i] != '|')
    ensures Joined(a)[..|a[0]|] == a[0] && Joined(a)[|a[0]| + 1..] == Joined(a[1..])
  {
    assert a[0] in a;
    var j := Joined(a);
    assert j == a[0] + "|" + Joined(a[1..]);
    assert forall i :: 0 <= i < |a[0]| ==> j[i] == a[0][i];
  }

  /** Without bars in the ids, the joined texts of two orders of one length tell them apart. */
  lemma {:induction false} JoinedTellsApart(a: seq<Id>, b: seq<Id>)
    requires NoBars(a) && NoBars(b) && |a| == |b| && Joined(a) == Joined(b)
    ensures a == b
  {
    if |a| <= 1 {
    } else {
      FirstBar(a);
      FirstBar(b);
      var j := Joined(a);
      assert |a[0]| == |b[0]|;
      assert a[0] == b[0];
      assert Joined(a[1..]) == Joined(b[1..]);
      JoinedTellsApart(a[1..], b[1..]);
      assert a == [a[0]] + a[1..] && b == [b[0]] + b[1..];
    }
  }

  /** Nor are the texts of orders of different lengths alike; an empty id would join to the text of no ids. */
  lemma {:induction false} JoinedTellsLength(a: seq<Id>, b: seq<Id>)
    requires NoBars(a) && NoBars(b) && "" !in a && "" !in b && Joined(a) == Joined(b)
    ensures |a| == |b|
  {
    if |a| <= 1 || |b| <= 1 {
      if |a| >= 2 { BarInJoined(a, b); }
      if |b| >= 2 { BarInJoined(b, a); }
      if |a| == 1 { assert a[0] in a; }
      if |b| == 1 { assert b[0] in b; }
    } else {
      FirstBar(a);
      FirstBar(b);
      assert |a[0]| == |b[0]|;
      JoinedTellsLength(a[1..], b[1..]);
    }
  }

  lemma BarInJoined(a: seq<Id>, b: seq<Id>)
    requires NoBars(a) && NoBars(b) && |a| >= 2 && |b| <= 1
    ensures Joined(a) != Joined(b)
  {
    FirstBar(a);
    assert '|' in Joined(a);
    if |b| == 1 { assert b[0] in b; }
  }

  // ---------------------------------------------------------------- the section over time

  /** A section as it is on the screen. `shown` is the merge computed last; it is computed again when
      the saved order is replaced, and when the joined text of the source ids changes. */
  datatype Section = Section(saved: seq<Id>, src: seq<Id>, shown: seq<Id>)

  /** What happens to a section: cards are dragged and dropped, artboards come and go, and the saved
      order arrives from the file. */
  datatype Change = DragTo(id: Id, slot: nat) | SetSource(src: seq<Id>) | Load(saved: seq<Id>)

  function Opened(saved: seq<Id>, src: seq<Id>): Section {
    Section(saved, src, Merge(saved, src))
  }

  function Changed(s: Section, c: Change): Section {
    match c
    case DragTo(id, slot) =>
      if id in s.shown && slot < |s.shown| && Joined(Moved(s.shown, id, slot)) != Joined(s.shown)
      then Opened(Dropped(s.saved, s.shown, Moved(s.shown, id, slot)), s.src) else s
    case SetSource(src) =>
      if Joined(src) != Joined(s.src) then Opened(s.saved, src) else s.(src := src)
    case Load(saved) => Opened(saved, s.src)
  }

  function After(s: Section, changes: seq<Change>): Section {
    if changes == [] then s else Changed(After(s, changes[..|changes| - 1]), changes[|changes| - 1])
  }

  /** The section shows the merge of what is saved and what is there now. */
  predicate ShowsMerge(s: Section) {
    s.shown == Merge(s.saved, s.src)
  }

  /** After a drop the section shows the dragged order if and only if the drop was seen as a change
      or changed nothing. */
  lemma DropShowsIff(s: Section, id: Id, slot: nat)
    requires Distinct(s.shown) && SameIds(s.shown, s.src) && id in s.shown && slot < |s.shown|
    ensures Changed(s, DragTo(id, slot)).shown == Moved(s.shown, id, slot) <==>
            Joined(Moved(s.shown, id, slot)) != Joined(s.shown) || Moved(s.shown, id, slot) == s.shown
  {
    MovedIsReordering(s.shown, id, slot);
    MergeOfFullOrder(Moved(s.shown, id, slot), s.src);
  }

  /** With bar-free ids every drop is shown. */
  lemma DropIsShown(s: Section, id: Id, slot: nat)
    requires Distinct(s.shown) && SameIds(s.shown, s.src) && NoBars(s.src) && id in s.shown && slot < |s.shown|
    ensures Changed(s, DragTo(id, slot)).shown == Moved(s.shown, id, slot)
  {
    var live := Moved(s.shown, id, slot);
    MovedIsReordering(s.shown, id, slot);
    DropShowsIff(s, id, slot);
    if Joined(live) == Joined(s.shown) { JoinedTellsApart(live, s.shown); }
  }

  /** A bar inside an id can hide a change: this drop is lost. */
  lemma BarHidesDrop()
    ensures var s := Opened([], ["a", "a|a"]);
      Moved(s.shown, "a", 1) == ["a|a", "a"] && Changed(s, DragTo("a", 1)).shown == ["a", "a|a"]
  {
    SourceAlone(["a", "a|a"]);
    PairSwapped("a", "a|a");
    JoinedPair("a|a", "a");
    JoinedPair("a", "a|a");
    assert "a|a" + "|" + "a" == "a" + "|" + "a|a";
  }

  lemma PairSwapped(a: Id, b: Id)
    requires a != b
    ensures Moved([a, b], a, 1) == [b, a]
  {
    TakenOut([a, b], a, 0);
    assert [a, b][..0] + [a, b][1..] == [b];
  }

  lemma JoinedPair(a: Id, b: Id)
    ensures Joined([a, b]) == a + "|" + b
  {
    assert [a, b][1..] == [b];
  }

  /** With nothing saved the source order is shown. */
  lemma SourceAlone(src: seq<Id>)
    ensures Merge([], src) == src
  {
    WithinNone(src, []);
  }

  /** The two id lists join to one text, so the old order stays on the screen: two ids that are gone. */
  lemma BarHidesSource()
    ensures var s := Changed(Opened([], ["a", "b|c"]), SetSource(["a|b", "c"]));
      s.src == ["a|b", "c"] && s.shown == ["a", "b|c"] && !SameIds(s.shown, s.src) && !ShowsMerge(s)
  {
    SourceAlone(["a", "b|c"]);
    SourceAlone(["a|b", "c"]);
    JoinedPair("a", "b|c");
    JoinedPair("a|b", "c");
    assert "a" in ["a", "b|c"] && "a" !in ["a|b", "c"];
  }

  /** The change is noticed, or would make no difference. */
  predicate Noticed(s: Section, c: Change) {
    c.SetSource? ==> Joined(c.src) != Joined(s.src) || Merge(s.saved, c.src) == Merge(s.saved, s.src)
  }

  /** A change leaves the section showing the merge if and only if it is noticed or makes no difference. */
  lemma ChangeShowsMergeIff(s: Section, c: Change)
    requires ShowsMerge(s)
    ensures ShowsMerge(Changed(s, c)) <==> Noticed(s, c)
  {
  }

  ghost predicate AllNoticed(s: Section, changes: seq<Change>) {
    changes == [] ||
    (AllNoticed(s, changes[..|changes| - 1]) && Noticed(After(s, changes[..|changes| - 1]), changes[|changes| - 1]))
  }

  /** No id is repeated. */
  ghost predicate Repeatless(s: Section) {
    Distinct(s.saved) && Distinct(s.src)
  }

  ghost predicate RepeatlessChanges(changes: seq<Change>) {
    forall i :: 0 <= i < |changes| ==> match changes[i]
      case DragTo(_, _) => true
      case SetSource(src) => Distinct(src)
      case Load(saved) => Distinct(saved)
  }

  /** After any run of drags, source changes and loads that were noticed, the section shows the merge:
      every artboard exactly once, with the saved ones in their saved order and the others in source
      order, and merging again changes nothing. */
  lemma {:induction false} SessionsStayConsistent(s: Section, changes: seq<Change>)
    requires ShowsMerge(s) && Repeatless(s) && RepeatlessChanges(changes) && AllNoticed(s, changes)
    ensures var t := After(s, changes);
      && ShowsMerge(t) && Repeatless(t)
      && Distinct(t.shown) && SameIds(t.shown, t.src)
      && Within(t.shown, t.saved) == Within(t.saved, t.src)
      && Outside(t.shown, t.saved) == Outside(t.src, t.saved)
      && Merge(t.shown, t.src) == t.shown
  {
    var t := After(s, changes);
    if changes == [] {
    } else {
      var before, c := After(s, changes[..|changes| - 1]), changes[|changes| - 1];
      SessionsStayConsistent(s, changes[..|changes| - 1]);
      ChangeShowsMergeIff(before, c);
      if c.DragTo? && c.id in before.shown && c.slot < |before.shown| { MovedIsReordering(before.shown, c.id, c.slot); }
    }
    MergeIsPermutation(t.saved, t.src);
    MergeKeepsBothOrders(t.saved, t.src);
    MergeIsIdempotent(t.saved, t.src);
  }

  /** A loaded order of the artboards that are there is shown as it is. */
  lemma LoadedIsShown(s: Section, saved: seq<Id>)
    requires SameIds(saved, s.src)
    ensures Changed(s, Load(saved)).shown == saved == Changed(s, Load(saved)).saved
  {
    MergeOfFullOrder(saved, s.src);
  }

  /** An artboard that goes and comes back returns to its place: the saved order outlives its absence. */
  lemma ReturnRestores(s: Section, without: seq<Id>)
    requires ShowsMerge(s) && Joined(without) != Joined(s.src)
    ensures Changed(Changed(s, SetSource(without)), SetSource(s.src)) == s
  {
  }

  /** Names without bars, and no empty name. */
  ghost predicate PlainIds(src: seq<Id>) {
    NoBars(src) && "" !in src
  }

  ghost predicate PlainChanges(changes: seq<Change>) {
    forall i :: 0 <= i < |changes| && changes[i].SetSource? ==> PlainIds(changes[i].src)
  }

  lemma PlainIsNoticed(s: Section, c: Change)
    requires PlainIds(s.src) && (c.SetSource? ==> PlainIds(c.src))
    ensures Noticed(s, c)
  {
    if c.SetSource? && Joined(c.src) == Joined(s.src) {
      JoinedTellsLength(c.src, s.src);
      JoinedTellsApart(c.src, s.src);
    }
  }

  /** With plain ids every change is noticed, so the section shows the merge after any run. */
  lemma {:induction false} PlainSessionsAreNoticed(s: Section, changes: seq<Change>)
    requires PlainIds(s.src) && PlainChanges(changes)
    ensures AllNoticed(s, changes) && PlainIds(After(s, changes).src)
  {
    if changes == [] {
    } else {
      PlainSessionsAreNoticed(s, changes[..|changes| - 1]);
      PlainIsNoticed(After(s, changes[..|changes| - 1]), changes[|changes| - 1]);
    }
  }
}
