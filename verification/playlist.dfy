/** The playlist widgets of `seaplayer/objects/playlist.py`, reduced to their state.

    A `PlayListItem` is a uuid and three text labels. A `PlayListView` is its
    list of item nodes plus the cursor `index` inherited from Textual's
    `ListView`, kept here as a plain optional integer (the setter's own checks
    belong to Textual and are not part of this model). Each selection call may
    post one `Selected` message for the highlighted child, which Textual defines
    as the node at `index` when `index` is in range and nothing otherwise. */
module Playlist {
  import opened Common
  import Tracks

  datatype Item = Item(uuid: Tracks.Uuid, first: string, second: string, third: string)

  datatype View = View(nodes: seq<Item>, index: Option<int>)

  /** The `ListView.Selected` message, carrying the highlighted item. */
  datatype Message = Selected(item: Item)

  /** The view after a call, and the message the call posted, if any. */
  datatype Step = Step(view: View, posted: Option<Message>)

  predicate InRange(v: View) {
    v.index.Some? && 0 <= v.index.value < |v.nodes|
  }

  /** Textual's `highlighted_child`. */
  function Highlighted(v: View): (r: Option<Item>)
    ensures r.Some? <==> InRange(v)
    ensures r.Some? ==> r.value == v.nodes[v.index.value]
  {
    if v.index.Some? && 0 <= v.index.value < |v.nodes| then Some(v.nodes[v.index.value]) else None
  }

  /** Stores `index` in the cursor, then posts `Selected` for the highlighted
      child when there is one. */
  function MoveTo(v: View, index: int): (r: Step)
    ensures r.view == v.(index := Some(index))
    ensures r.posted.Some? <==> 0 <= index < |v.nodes|
    ensures r.posted.Some? ==> r.posted.value == Selected(v.nodes[index])
  {
    var v' := v.(index := Some(index));
    match Highlighted(v')
    case None => Step(v', None)
    case Some(child) => Step(v', Some(Selected(child)))
  }

  /** `PlayListItem.__init__`, whose labels default to the empty text. */
  function NewItem(uuid: Tracks.Uuid, first: string := "", second: string := "",
                   third: string := ""): (it: Item)
    ensures it.uuid == uuid
    ensures it.first == first && it.second == second && it.third == third
  {
    Item(uuid, first, second, third)
  }

  /** `PlayListItem.update_labels`: a partial update, where a missing argument
      keeps its label. */
  function UpdateLabels(it: Item, first: Option<string>, second: Option<string>,
                        third: Option<string>): (r: Item)
    ensures r.uuid == it.uuid
    ensures first.None? ==> r.first == it.first
    ensures first.Some? ==> r.first == first.value
    ensures second.None? ==> r.second == it.second
    ensures second.Some? ==> r.second == second.value
    ensures third.None? ==> r.third == it.third
    ensures third.Some? ==> r.third == third.value
  {
    var it1 := if first.Some? then it.(first := first.value) else it;
    var it2 := if second.Some? then it1.(second := second.value) else it1;
    if third.Some? then it2.(third := third.value) else it2
  }

  /** The later argument wins, the earlier one fills in where the later is missing. */
  function Override(earlier: Option<string>, later: Option<string>): Option<string> {
    if later.Some? then later else earlier
  }

  /** Two partial updates amount to one whose arguments are merged. */
  lemma {:induction false} UpdateLabelsCompose(it: Item, f1: Option<string>, s1: Option<string>, t1: Option<string>,
                            f2: Option<string>, s2: Option<string>, t2: Option<string>)
    ensures UpdateLabels(UpdateLabels(it, f1, s1, t1), f2, s2, t2)
         == UpdateLabels(it, Override(f1, f2), Override(s1, s2), Override(t1, t2))
  {
  }

  /** With every argument missing, `update_labels` changes nothing; repeating
      an update changes nothing more. */
  lemma {:induction false} UpdateLabelsIdentityAndIdempotent(it: Item, f: Option<string>, s: Option<string>, t: Option<string>)
    ensures UpdateLabels(it, None, None, None) == it
    ensures UpdateLabels(UpdateLabels(it, f, s, t), f, s, t) == UpdateLabels(it, f, s, t)
  {
  }

  /** `PlayListView.select`: moves the cursor only to an index that names a node. */
  function Select(v: View, index: int): (r: Step)
    ensures r.view.nodes == v.nodes
    ensures 0 <= index < |v.nodes| ==> r.view.index == Some(index)
    ensures 0 <= index < |v.nodes| ==> r.posted == Some(Selected(v.nodes[index]))
    ensures !(0 <= index < |v.nodes|) ==> r == Step(v, None)
  {
    if 0 <= index < |v.nodes| then MoveTo(v, index) else Step(v, None)
  }

  /** One step forward round `n` places, in modular terms. */
  lemma {:induction false} ModForward(i: int, n: int)
    ensures 0 <= i < n ==> (i + 1) % n == if i + 1 < n then i + 1 else 0
  {
    if 0 <= i < n {
      if i + 1 < n {
        ModUnique(i + 1, 0, i + 1, n);
      } else {
        ModUnique(i + 1, 1, 0, n);
      }
    }
  }

  /** One step back round `n` places, in modular terms. */
  lemma {:induction false} ModBackward(i: int, n: int)
    ensures 0 <= i < n ==> (i - 1) % n == if i - 1 >= 0 then i - 1 else n - 1
  {
    if 0 <= i < n {
      if i - 1 >= 0 {
        ModUnique(i - 1, 0, i - 1, n);
      } else {
        ModUnique(i - 1, -1, n - 1, n);
      }
    }
  }

  /** `PlayListView.select_next`. */
  function SelectNext(v: View): (r: Step)
    ensures r.view.nodes == v.nodes
    ensures v.index.None? ==> r == Step(v, None)
    ensures v.index.Some? ==> r.view.index.Some?
    ensures InRange(v) ==> r.view.index == Some((v.index.value + 1) % |v.nodes|)
    ensures v.index.Some? && v.index.value + 1 < |v.nodes| ==> r.view.index == Some(v.index.value + 1)
    ensures v.index.Some? && v.index.value + 1 >= |v.nodes| ==> r.view.index == Some(0)
    ensures r.posted.Some? <==> v.index.Some? && InRange(r.view)
    ensures r.posted.Some? ==> r.posted == Some(Selected(v.nodes[r.view.index.value]))
  {
    if v.index.None? then Step(v, None)
    else
      var index := v.index.value + 1;
      var index' := if index >= |v.nodes| then 0 else index;
      ModForward(v.index.value, |v.nodes|);
      MoveTo(v, index')
  }

  /** `PlayListView.select_previous`. */
  function SelectPrevious(v: View): (r: Step)
    ensures r.view.nodes == v.nodes
    ensures v.index.None? ==> r == Step(v, None)
    ensures v.index.Some? ==> r.view.index.Some?
    ensures InRange(v) ==> r.view.index == Some((v.index.value - 1) % |v.nodes|)
    ensures v.index.Some? && v.index.value - 1 >= 0 ==> r.view.index == Some(v.index.value - 1)
    ensures v.index.Some? && v.index.value - 1 < 0 ==> r.view.index == Some(|v.nodes| - 1)
    ensures r.posted.Some? <==> v.index.Some? && InRange(r.view)
    ensures r.posted.Some? ==> r.posted == Some(Selected(v.nodes[r.view.index.value]))
  {
    if v.index.None? then Step(v, None)
    else
      var index := v.index.value - 1;
      var index' := if index < 0 then |v.nodes| - 1 else index;
      ModBackward(v.index.value, |v.nodes|);
      MoveTo(v, index')
  }

  /** From an in-range cursor, both moves keep the cursor in range and post the
      newly highlighted item. */
  lemma {:induction false} MovesStayInRange(v: View)
    requires InRange(v)
    ensures InRange(SelectNext(v).view) && SelectNext(v).posted.Some?
    ensures InRange(SelectPrevious(v).view) && SelectPrevious(v).posted.Some?
  {
  }

  /** On an in-range cursor, `select_next` and `select_previous` undo each other. */
  lemma {:induction false} NextPreviousInverse(v: View)
    requires InRange(v)
    ensures SelectPrevious(SelectNext(v).view).view == v
    ensures SelectNext(SelectPrevious(v).view).view == v
  {
  }

  /** Selecting an index and then stepping is selecting the neighbouring index
      round the list, message included; selecting the same index twice is
      selecting it once. */
  lemma {:induction false} SelectThenStep(v: View, i: int)
    requires 0 <= i < |v.nodes|
    ensures SelectNext(Select(v, i).view) == Select(v, (i + 1) % |v.nodes|)
    ensures SelectPrevious(Select(v, i).view) == Select(v, (i - 1) % |v.nodes|)
    ensures Select(Select(v, i).view, i) == Select(v, i)
  {
    ModForward(i, |v.nodes|);
    ModBackward(i, |v.nodes|);
  }

  /** `select_next` applied `k` times. */
  function NextTimes(v: View, k: nat): View
    decreases k
  {
    if k == 0 then v else NextTimes(SelectNext(v).view, k - 1)
  }

  /** From an in-range cursor, `k` steps forward land `k` places further round the list. */
  lemma {:induction false} NextTimesIndex(v: View, k: nat)
    requires InRange(v)
    ensures NextTimes(v, k).nodes == v.nodes
    ensures NextTimes(v, k).index == Some((v.index.value + k) % |v.nodes|)
    decreases k
  {
    if k > 0 {
      var v1 := SelectNext(v).view;
      NextTimesIndex(v1, k - 1);
      var n := |v.nodes|;
      var i := v.index.value;
      assert v1.index.value == (i + 1) % n;
      ModAddOne(i + 1, k - 1, n);
    }
  }

  /** Euclidean division is unique: a quotient and an in-range remainder
      that rebuild `x` are the ones `/` and `%` compute. */
  lemma {:induction false} ModUnique(x: int, q: int, r: int, n: int)
    requires n > 0 && 0 <= r < n && x == q * n + r
    ensures x % n == r
  {
    var q', r' := x / n, x % n;
    assert (q - q') * n == r' - r;
    if q > q' {
      MulAtLeast(q - q', n);
    } else if q < q' {
      MulAtLeast(q' - q, n);
    }
  }

  lemma {:induction false} MulAtLeast(d: int, n: int)
    requires d >= 1 && n > 0
    ensures d * n >= n
  {
  }

  lemma {:induction false} ModAddOne(a: int, b: int, n: int)
    requires n > 0
    ensures (a % n + b) % n == (a + b) % n
  {
    var q, r := (a + b) / n, (a + b) % n;
    assert a % n + b == (q - a / n) * n + r;
    ModUnique(a % n + b, q - a / n, r, n);
  }

  /** Going forward once per node brings the cursor back to where it started. */
  lemma {:induction false} NextFullCycle(v: View)
    requires InRange(v)
    ensures NextTimes(v, |v.nodes|) == v
  {
    var n := |v.nodes|;
    var i := v.index.value;
    var w := NextTimes(v, n);
    NextTimesIndex(v, n);
    ModUnique(i + n, 1, i, n);
    assert w.index == Some(i) && w.nodes == v.nodes;
  }

  /** `PlayListView.create_item`: appends one new item; the cursor stays. */
  function CreateItem(v: View, uuid: Tracks.Uuid, first: string := "", second: string := "",
                      third: string := ""): (r: View)
    ensures |r.nodes| == |v.nodes| + 1
    ensures r.nodes[..|v.nodes|] == v.nodes
    ensures r.nodes[|v.nodes|].uuid == uuid
    ensures r.nodes[|v.nodes|] == NewItem(uuid, first, second, third)
    ensures r.index == v.index
  {
    v.(nodes := v.nodes + [NewItem(uuid, first, second, third)])
  }

  /** A newly created item can be selected at the next free index, which posts
      it; every earlier index still selects the item it selected before. */
  lemma {:induction false} CreateThenSelect(v: View, uuid: Tracks.Uuid, first: string, second: string,
                                            third: string, i: int)
    ensures Select(CreateItem(v, uuid, first, second, third), |v.nodes|).posted
            == Some(Selected(NewItem(uuid, first, second, third)))
    ensures Select(CreateItem(v, uuid, first, second, third), |v.nodes|).view.index == Some(|v.nodes|)
    ensures 0 <= i < |v.nodes| ==>
            Select(CreateItem(v, uuid, first, second, third), i).posted == Select(v, i).posted
  {
    var w := CreateItem(v, uuid, first, second, third);
    if 0 <= i < |v.nodes| {
      assert w.nodes[i] == w.nodes[..|v.nodes|][i];
    }
  }
}
