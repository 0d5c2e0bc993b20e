/**
 * The order of the rows of `getAttendanceTableFor` (helper.py:203-205,
 * 214-215): a date gets its row when it is first seen, at the end of the
 * dict, and keeps it; the report lists the rows in that order.
 */
module PivotOrder {
  import opened Outcomes
  import opened Builtins
  import opened AttendanceTable

  /** No key occurs twice. */
  predicate Distinct(s: seq<string>)
  {
    forall i, j :: 0 <= i < |s| && 0 <= j < |s| && i != j ==> s[i] != s[j]
  }

  /** The keys already present stay first, in their order. */
  lemma {:induction false} AppendUnseenExtends(order: seq<string>, xs: seq<string>)
    ensures |order| <= |AppendUnseen(order, xs)|
    ensures AppendUnseen(order, xs)[..|order|] == order
    decreases |xs|
  {
    if |xs| > 0 {
      AppendUnseenExtends(order, xs[..|xs| - 1]);
      var before := AppendUnseen(order, xs[..|xs| - 1]);
      assert (before + [xs[|xs| - 1]])[..|order|] == before[..|order|];
    }
  }

  /** A key is present afterwards exactly when it was before or is among `xs`. */
  lemma {:induction false} AppendUnseenMembers(order: seq<string>, xs: seq<string>, d: string)
    ensures d in AppendUnseen(order, xs) <==> d in order || d in xs
    decreases |xs|
  {
    if |xs| > 0 {
      var prefix := xs[..|xs| - 1];
      AppendUnseenMembers(order, prefix, d);
      assert xs == prefix + [xs[|xs| - 1]];
    }
  }

  /** No key is added twice. */
  lemma {:induction false} AppendUnseenDistinct(order: seq<string>, xs: seq<string>)
    requires Distinct(order)
    ensures Distinct(AppendUnseen(order, xs))
    decreases |xs|
  {
    if |xs| > 0 {
      AppendUnseenDistinct(order, xs[..|xs| - 1]);
    }
  }

  /** Seeing `xs` and then `ys` is seeing `xs + ys`. */
  lemma {:induction false} AppendUnseenConcat(order: seq<string>, xs: seq<string>, ys: seq<string>)
    ensures AppendUnseen(AppendUnseen(order, xs), ys) == AppendUnseen(order, xs + ys)
    decreases |ys|
  {
    if |ys| > 0 {
      var prefix := ys[..|ys| - 1];
      AppendUnseenConcat(order, xs, prefix);
      assert (xs + ys)[..|xs + ys| - 1] == xs + prefix;
      assert (xs + ys)[|xs + ys| - 1] == ys[|ys| - 1];
    } else {
      assert xs + ys == xs;
    }
  }

  /**
   * Starting from no keys, the keys come out in the order in which they are
   * first seen: an earlier key's first occurrence in `xs` precedes a later one's.
   */
  lemma {:induction false} AppendUnseenFirstSeen(xs: seq<string>)
    ensures forall i, j :: 0 <= i < j < |AppendUnseen([], xs)| ==>
      AppendUnseen([], xs)[i] in xs && AppendUnseen([], xs)[j] in xs
      && IndexOf(xs, AppendUnseen([], xs)[i]).value < IndexOf(xs, AppendUnseen([], xs)[j]).value
    decreases |xs|
  {
    if |xs| > 0 {
      var prefix, x := xs[..|xs| - 1], xs[|xs| - 1];
      AppendUnseenFirstSeen(prefix);
      var before := AppendUnseen([], prefix);
      assert xs == prefix + [x];
      forall k | 0 <= k < |before|
        ensures before[k] in prefix && IndexOf(xs, before[k]) == IndexOf(prefix, before[k])
      {
        AppendUnseenMembers([], prefix, before[k]);
        IndexOfAppendSeen(prefix, x, before[k]);
      }
      var after := AppendUnseen([], xs);
      if x !in before {
        AppendUnseenMembers([], prefix, x);
        IndexOfAppendUnseen(prefix, x);
        assert after == before + [x];
        forall i, j | 0 <= i < j < |after|
          ensures after[i] in xs && after[j] in xs && IndexOf(xs, after[i]).value < IndexOf(xs, after[j]).value
        {
          if j == |before| {
            assert after[i] == before[i] && after[j] == x;
          }
        }
      } else {
        assert after == before;
        forall i, j | 0 <= i < j < |after|
          ensures after[i] in xs && after[j] in xs && IndexOf(xs, after[i]).value < IndexOf(xs, after[j]).value
        {
          assert IndexOf(prefix, before[i]).value < IndexOf(prefix, before[j]).value;
        }
      }
    } else {
      assert |AppendUnseen([], xs)| == 0;
    }
  }
}
