// What several modules share.
module Basics {

  datatype Option<T> = None | Some(value: T)

  // an unsigned int of the program
  const WORD: int := 0x1_0000_0000

  const MAX_ALLOWED_KA_MISSES := 5

  ghost predicate Distinct<T>(s: seq<T>) { forall i, j :: 0 <= i < j < |s| ==> s[i] != s[j] }

  // A fact behind a gate is carried along by proofs that do not open the gate, without a look inside.
  datatype Gate =
    | TreeGate | IndexGate | ListGate | NodeGate | OwingGate
    | BaseGate | AccountGate | BeatGate | ModeratorGate | GroupGate | SplitGate | JobGate

  ghost predicate Opened(g: Gate) { true }
}
