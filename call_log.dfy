/** Facts about the logs of outgoing calls that do not depend on which
    coordinator made them: which kinds of call a stretch of log holds, and
    how the slices of a concatenated log line up. */
module CallLog {
  import opened Base

  /** Only `onOffset` and `onContentOffset` calls. */
  predicate OnlyOffsets<T>(s: seq<Callback<T>>)
  {
    forall k :: 0 <= k < |s| ==> s[k].Offset? || s[k].ContentOffset?
  }

  /** No `onRefreshStart` call. */
  predicate NoStart<T>(s: seq<Callback<T>>)
  {
    forall k :: 0 <= k < |s| ==> !s[k].RefreshStart?
  }

  lemma OnlyOffsetsAppend<T>(s: seq<Callback<T>>, t: seq<Callback<T>>)
    requires OnlyOffsets(s) && OnlyOffsets(t)
    ensures OnlyOffsets(s + t)
  {
    forall k | 0 <= k < |s + t| ensures (s + t)[k].Offset? || (s + t)[k].ContentOffset? {
      if k < |s| { assert (s + t)[k] == s[k]; } else { assert (s + t)[k] == t[k - |s|]; }
    }
  }

  lemma NoStartAppend<T>(a: seq<Callback<T>>, b: seq<Callback<T>>)
    requires NoStart(a) && NoStart(b)
    ensures NoStart(a + b)
  {
    forall k | 0 <= k < |a + b| ensures !(a + b)[k].RefreshStart? {
      if k < |a| { assert (a + b)[k] == a[k]; } else { assert (a + b)[k] == b[k - |a|]; }
    }
  }

  /** The slices of a log built as `x + y + z`. */
  lemma LogSlices<T>(r: seq<Callback<T>>, x: seq<Callback<T>>, y: seq<Callback<T>>, z: seq<Callback<T>>)
    requires r == x + y + z
    ensures r[..|x|] == x && r[|x|..|r| - |z|] == y && r[|r| - |z|..] == z
  {
  }

  /** Two log extensions by offsets only make one. */
  lemma LogChain<T>(x: seq<Callback<T>>, m: seq<Callback<T>>, r: seq<Callback<T>>)
    requires |x| <= |m| && m[..|x|] == x && OnlyOffsets(m[|x|..])
    requires |m| <= |r| && r[..|m|] == m && OnlyOffsets(r[|m|..])
    ensures |x| <= |r| && r[..|x|] == x && OnlyOffsets(r[|x|..])
  {
    assert r[..|x|] == m[..|x|];
    assert r[|x|..] == m[|x|..] + r[|m|..];
    OnlyOffsetsAppend(m[|x|..], r[|m|..]);
  }

  /** The log of a completed settle: what the frames added, then the
      elapsed frame's offset calls, then the completion calls. */
  lemma SettleLog<T>(x: seq<Callback<T>>, m: seq<Callback<T>>, r: seq<Callback<T>>,
                     y: seq<Callback<T>>, n: seq<Callback<T>>)
    requires |x| <= |m| && m[..|x|] == x && OnlyOffsets(m[|x|..])
    requires r == m + y + n && OnlyOffsets(y)
    ensures |x| <= |r| && r[..|x|] == x && |r| - |x| >= |n|
    ensures r[|r| - |n|..] == n && OnlyOffsets(r[|x|..|r| - |n|])
  {
    var a := m[|x|..];
    assert m == x + a;
    LogSlices(r, x, a + y, n);
    OnlyOffsetsAppend(a, y);
  }
}
