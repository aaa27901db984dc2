/** What it means that a list keeps, in order, exactly some elements of another. */
module Selections {

  /** `at` lists, in order, exactly the positions of `s` at which `keep` holds. */
  ghost predicate Selects<T(!new)>(s: seq<T>, keep: T -> bool, at: seq<nat>) {
    && (forall k, l :: 0 <= k < l < |at| ==> at[k] < at[l])
    && (forall k :: 0 <= k < |at| ==> at[k] < |s| && keep(s[at[k]]))
    && (forall i :: 0 <= i < |s| && keep(s[i]) ==> i in at)
  }

  /** `r` holds the images of the selected elements, in order. */
  ghost predicate IsSelection<T(!new), U(!new)>(s: seq<T>, keep: T -> bool, image: T -> U, at: seq<nat>, r: seq<U>) {
    Selects(s, keep, at) && |r| == |at| && forall k :: 0 <= k < |at| ==> at[k] < |s| && r[k] == image(s[at[k]])
  }

  lemma SelectsSnoc<T(!new)>(s: seq<T>, keep: T -> bool, at: seq<nat>, x: T)
    requires Selects(s, keep, at)
    ensures Selects(s + [x], keep, if keep(x) then at + [|s|] else at)
  {
    var all, at' := s + [x], if keep(x) then at + [|s|] else at;
    forall i | 0 <= i < |all| && keep(all[i]) ensures i in at' {
      if i < |s| {
        assert s[i] == all[i] && i in at;
      } else {
        assert at'[|at|] == i;
      }
    }
  }

  lemma SelectionSnoc<T(!new), U(!new)>(s: seq<T>, keep: T -> bool, image: T -> U, at: seq<nat>, r: seq<U>, x: T)
    requires IsSelection(s, keep, image, at, r)
    ensures IsSelection(s + [x], keep, image, if keep(x) then at + [|s|] else at, if keep(x) then r + [image(x)] else r)
  {
    SelectsSnoc(s, keep, at, x);
  }
}
