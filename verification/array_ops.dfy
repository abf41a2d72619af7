/** The two index-driven array idioms the session handlers use. */
module ArrayOps {

  /** `xs.filter((_, i) => i !== index)`: every element whose position differs
      from `index` is kept, in order. */
  function FilterOutIndex<T>(xs: seq<T>, index: int): (r: seq<T>)
    ensures 0 <= index < |xs| ==> r == xs[..index] + xs[index + 1..]
    ensures !(0 <= index < |xs|) ==> r == xs
    decreases |xs|
  {
    if |xs| == 0 then []
    else
      var n := |xs| - 1;
      var init := FilterOutIndex(xs[..n], index);
      var r := init + (if index == n then [] else [xs[n]]);
      assert 0 <= index < n ==> r == xs[..index] + xs[index + 1..] by {
        if 0 <= index < n {
          assert xs[..n][..index] == xs[..index];
          assert xs[..n][index + 1..] + [xs[n]] == xs[index + 1..];
        }
      }
      assert !(0 <= index <= n) ==> r == xs by {
        assert xs == xs[..n] + [xs[n]];
      }
      r
  }

  /** `xs.map((v, i) => i === index ? !v : v)`. */
  function ToggleAt(xs: seq<bool>, index: int): (r: seq<bool>)
    ensures |r| == |xs|
    ensures 0 <= index < |xs| ==> r[index] == !xs[index]
    ensures forall i :: 0 <= i < |xs| && i != index ==> r[i] == xs[i]
  {
    seq(|xs|, i requires 0 <= i < |xs| => if i == index then !xs[i] else xs[i])
  }

  /** Toggling the same entry twice restores the original sequence. */
  lemma ToggleTwice(xs: seq<bool>, index: int)
    ensures ToggleAt(ToggleAt(xs, index), index) == xs
  {
  }

  /** Toggling an index outside the sequence changes nothing. */
  lemma ToggleOutOfRange(xs: seq<bool>, index: int)
    requires !(0 <= index < |xs|)
    ensures ToggleAt(xs, index) == xs
  {
  }
}
