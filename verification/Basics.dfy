/** What several parts of the model share. */
module Basics {

  datatype Option<+T> = None | Some(value: T)

  // How an operation that may raise a Lua error ends.
  datatype Status = Success | Failure(msg: string)

  // ---------- sequences of positions ----------

  ghost predicate NoDup(s: seq<nat>) { forall i, j :: 0 <= i < j < |s| ==> s[i] != s[j] }

  ghost predicate Disjoint(s: seq<nat>, t: seq<nat>) { forall j :: j in s ==> j !in t }

  // ---------- powers of two ----------

  function Pow2(i: nat): (p: nat)
    ensures p > 0
  {
    if i == 0 then 1 else 2 * Pow2(i - 1)
  }

  lemma {:induction false} Pow2Mono(i: nat, j: nat)
    requires i <= j
    ensures Pow2(i) <= Pow2(j) && (i < j ==> 2 * Pow2(i) <= Pow2(j))
  {
    if i < j {
      Pow2Mono(i, j - 1);
    }
  }
}

/** Limits of the virtual machine and its compiler. */
module Limits {

  const MAXSTACK := 250
  const NO_REG: nat := 255
  const BITRK: nat := 256
  const LUAI_MAXCCALLS: nat := 200
  const MAXARG_BX := 262143
  const MAXARG_SBX := 131071
}
