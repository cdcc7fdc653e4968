/** One sequence standing at a position inside another. */
module Slices {

  /** `part` stands in `s` at position `i`. */
  predicate At<T(==)>(s: seq<T>, i: nat, part: seq<T>) {
    if part == [] then i <= |s|
    else
      var last := |part| - 1;
      At(s, i, part[..last]) && i + last < |s| && s[i + last] == part[last]
  }

  lemma {:induction false} AtIsSlice<T>(s: seq<T>, i: nat, part: seq<T>)
    ensures At(s, i, part) <==> i + |part| <= |s| && s[i..i + |part|] == part
  {
    if part != [] {
      var last := |part| - 1;
      AtIsSlice(s, i, part[..last]);
      if i + |part| <= |s| {
        assert s[i..i + |part|] == s[i..i + last] + [s[i + last]];
        assert part == part[..last] + [part[last]];
      }
    }
  }

  lemma {:induction false} AtSplit<T>(s: seq<T>, i: nat, a: seq<T>, b: seq<T>)
    ensures At(s, i, a + b) <==> At(s, i, a) && At(s, i + |a|, b)
    ensures At(s, i, a) ==> i + |a| <= |s|
  {
    AtIsSlice(s, i, a);
    if b == [] {
      assert a + b == a;
    } else {
      var init := b[..|b| - 1];
      AtSplit(s, i, a, init);
      assert (a + b)[..|a + b| - 1] == a + init;
    }
  }

  lemma {:induction false} AtElement<T>(s: seq<T>, i: nat, part: seq<T>, k: nat)
    requires At(s, i, part) && k < |part|
    ensures i + k < |s| && s[i + k] == part[k]
  {
    if k < |part| - 1 {
      AtElement(s, i, part[..|part| - 1], k);
    }
  }

  lemma {:induction false} AtAppended<T>(pre: seq<T>, part: seq<T>, post: seq<T>)
    ensures At(pre + part + post, |pre|, part)
    ensures pre + part + post == pre + (part + post)
  {
    AtIsSlice(pre + part + post, |pre|, part);
  }
}
