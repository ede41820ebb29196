/** Per-element boolean class flags (`active`, `hidden`) over a list of
    elements. */
module Flags {

  /** The flags after `el.classList.toggle('active', i === index)` on every
      element: only position `index` is set. */
  function OnlyAt(count: nat, index: nat): seq<bool>
  {
    seq(count, i => i == index)
  }

  /** How many flags are set. */
  function CountSet(flags: seq<bool>): nat
  {
    if flags == [] then 0
    else CountSet(flags[..|flags| - 1]) + (if flags[|flags| - 1] then 1 else 0)
  }

  /** Exactly one element is flagged when the index is in range, none otherwise. */
  lemma {:induction false} OnlyAtCount(count: nat, index: nat)
    ensures CountSet(OnlyAt(count, index)) == if index < count then 1 else 0
  {
    if count > 0 {
      OnlyAtCount(count - 1, index);
      assert OnlyAt(count, index)[..count - 1] == OnlyAt(count - 1, index);
    }
  }
}
