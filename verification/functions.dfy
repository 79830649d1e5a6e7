/** The iteration and string helpers of `seaplayer/functions.py`.

    Iterables are finite sequences. `isinstance` is a predicate parameter and
    `repr` a function parameter, since both belong to the Python runtime. */
module Functions {
  import opened Common

  /** The concatenation of `iters`, in order: the reference for `iter_dazzle`. */
  function Concat<T>(iters: seq<seq<T>>): seq<T>
    decreases |iters|
  {
    if |iters| == 0 then [] else iters[0] + Concat(iters[1..])
  }

  lemma {:induction false} ConcatSnoc<T>(iters: seq<seq<T>>, last: seq<T>)
    ensures Concat(iters + [last]) == Concat(iters) + last
    decreases |iters|
  {
    if |iters| == 0 {
      assert iters + [last] == [last];
    } else {
      assert (iters + [last])[1..] == iters[1..] + [last];
      ConcatSnoc(iters[1..], last);
    }
  }

  /** Concatenation distributes over joining the argument lists. */
  lemma {:induction false} ConcatAppend<T>(a: seq<seq<T>>, b: seq<seq<T>>)
    ensures Concat(a + b) == Concat(a) + Concat(b)
    decreases |a|
  {
    if |a| == 0 {
      assert a + b == b;
    } else {
      assert (a + b)[1..] == a[1..] + b;
      ConcatAppend(a[1..], b);
    }
  }

  /** When every part has length `width`, the concatenation has `width`
      positions per part. */
  lemma {:induction false} ConcatUniformLength<T>(rows: seq<seq<T>>, width: nat)
    requires forall k :: 0 <= k < |rows| ==> |rows[k]| == width
    ensures |Concat(rows)| == |rows| * width
    decreases |rows|
  {
    if |rows| > 0 {
      ConcatUniformLength(rows[1..], width);
      MulPred(|rows|, width);
    }
  }

  /** When every part has length `width`, item `j` of part `k` sits at
      position `k * width + j` of the concatenation. */
  lemma {:induction false} ConcatUniformAt<T>(rows: seq<seq<T>>, width: nat, k: nat, j: nat)
    requires forall i :: 0 <= i < |rows| ==> |rows[i]| == width
    requires k < |rows| && j < width
    ensures k * width + j < |Concat(rows)|
    ensures Concat(rows)[k * width + j] == rows[k][j]
    decreases k
  {
    ConcatUniformLength(rows, width);
    MulMono(k, |rows|, width);
    var rest := rows[1..];
    assert Concat(rows) == rows[0] + Concat(rest);
    if k > 0 {
      ConcatUniformAt(rest, width, k - 1, j);
      MulPred(k, width);
      assert k * width + j == width + ((k - 1) * width + j);
    }
  }

  lemma {:induction false} MulPred(k: int, w: int)
    ensures (k - 1) * w + w == k * w
  {
  }

  lemma {:induction false} MulMono(a: nat, b: nat, w: nat)
    requires a < b
    ensures a * w + w <= b * w
  {
    MulPred(b, w);
    assert a * w <= (b - 1) * w by {
      if a < b - 1 {
        MulMono(a, b - 1, w);
      }
    }
  }

  /** `iter_dazzle`: yields the items of each argument in turn. */
  method IterDazzle<T>(iters: seq<seq<T>>) returns (out: seq<T>)
    ensures out == Concat(iters)
    ensures |iters| == 0 ==> out == []
  {
    out := [];
    var i := 0;
    while i < |iters|
      invariant 0 <= i <= |iters|
      invariant out == Concat(iters[..i])
    {
      var j := 0;
      while j < |iters[i]|
        invariant 0 <= j <= |iters[i]|
        invariant out == Concat(iters[..i]) + iters[i][..j]
      {
        assert iters[i][..j + 1] == iters[i][..j] + [iters[i][j]];
        out := out + [iters[i][j]];
        j := j + 1;
      }
      assert iters[i][..j] == iters[i];
      assert iters[..i + 1] == iters[..i] + [iters[i]];
      ConcatSnoc(iters[..i], iters[i]);
      i := i + 1;
    }
    assert iters[..i] == iters;
  }

  /** `exist_by_type`: whether some item passes the instance test. `consumed`
      is how many items the loop pulled from the iterable before returning. */
  method ExistByType<T>(isInstance: T -> bool, items: seq<T>) returns (found: bool, consumed: nat)
    ensures found <==> exists i :: 0 <= i < |items| && isInstance(items[i])
    ensures consumed <= |items|
    ensures forall i :: 0 <= i < consumed - 1 ==> !isInstance(items[i])
    ensures found ==> consumed > 0 && isInstance(items[consumed - 1])
    ensures !found ==> consumed == |items|
    ensures |items| == 0 ==> !found
  {
    var i := 0;
    while i < |items|
      invariant 0 <= i <= |items|
      invariant forall j :: 0 <= j < i ==> !isInstance(items[j])
    {
      if isInstance(items[i]) {
        return true, i + 1;
      }
      i := i + 1;
    }
    return false, |items|;
  }

  /** `", ".join(parts)` for any separator. */
  function Join(parts: seq<string>, sep: string): string
    decreases |parts|
  {
    if |parts| == 0 then ""
    else if |parts| == 1 then parts[0]
    else parts[0] + sep + Join(parts[1..], sep)
  }

  /** Joining one more part adds the separator and the part at the end. */
  lemma {:induction false} JoinSnoc(parts: seq<string>, sep: string, last: string)
    requires |parts| > 0
    ensures Join(parts + [last], sep) == Join(parts, sep) + sep + last
    decreases |parts|
  {
    if |parts| > 1 {
      assert (parts + [last])[1..] == parts[1..] + [last];
      JoinSnoc(parts[1..], sep, last);
    }
  }

  lemma {:induction false} JoinPair(a: string, b: string, sep: string)
    ensures Join([a], sep) == a
    ensures Join([a, b], sep) == a + sep + b
  {
    assert [a, b][1..] == [b];
  }

  /** The texts `formattrs` joins: `repr(v)` for each positional argument, then
      `key=repr(v)` for each keyword argument, each group in call order. */
  function Attributes<V>(args: seq<V>, kwargs: seq<(string, V)>, repr: V -> string): (parts: seq<string>)
    ensures |parts| == |args| + |kwargs|
    ensures forall i :: 0 <= i < |args| ==> parts[i] == repr(args[i])
    ensures forall j :: 0 <= j < |kwargs| ==> parts[|args| + j] == kwargs[j].0 + "=" + repr(kwargs[j].1)
  {
    seq(|args|, i requires 0 <= i < |args| => repr(args[i]))
      + seq(|kwargs|, j requires 0 <= j < |kwargs| => kwargs[j].0 + "=" + repr(kwargs[j].1))
  }

  /** One attribute text: `key=repr(v)` when there is a key, `repr(v)` when not. */
  function Attribute<V>(key: Option<string>, value: V, repr: V -> string): string {
    if key.Some? then key.value + "=" + repr(value) else repr(value)
  }

  /** `formattrs(*args, **kwargs)`: pairs each positional argument with no key,
      each keyword argument with its key, walks both with `iter_dazzle`, and
      joins the texts with `", "`. */
  method Formattrs<V>(args: seq<V>, kwargs: seq<(string, V)>, repr: V -> string) returns (s: string)
    ensures s == Join(Attributes(args, kwargs, repr), ", ")
    ensures |args| + |kwargs| == 0 ==> s == ""
    ensures |args| + |kwargs| == 1 ==> s == Attributes(args, kwargs, repr)[0]
  {
    var positional := seq(|args|, i requires 0 <= i < |args| => (None, args[i]));
    var keyword := seq(|kwargs|, j requires 0 <= j < |kwargs| => (Some(kwargs[j].0), kwargs[j].1));
    var pairs := IterDazzle([positional, keyword]);
    assert Concat([positional, keyword]) == positional + keyword by {
      assert Concat([positional, keyword][1..]) == keyword + [];
    }
    ghost var expected := Attributes(args, kwargs, repr);
    var attrs: seq<string> := [];
    var i := 0;
    while i < |pairs|
      invariant 0 <= i <= |pairs|
      invariant |pairs| == |expected|
      invariant attrs == expected[..i]
    {
      var (key, value) := pairs[i];
      assert Attribute(key, value, repr) == expected[i] by {
        if i >= |args| {
          assert pairs[i] == keyword[i - |args|];
        }
      }
      attrs := attrs + [Attribute(key, value, repr)];
      i := i + 1;
    }
    assert attrs == expected;
    s := Join(attrs, ", ");
  }
}
