/** Random ids (crates/orchestrator/src/state.rs): drawn until one is nobody's. */
module Ids {

  lemma {:induction false} LongerThanAll(taken: set<string>) returns (n: nat)
    ensures forall id | id in taken :: |id| < n
  {
    n := 0;
    if taken != {} {
      var id :| id in taken;
      var rest := LongerThanAll(taken - {id});
      n := if |id| < rest then rest else |id| + 1;
    }
  }

  /** The draw, taken to come to an end. */
  method NewId(taken: set<string>) returns (id: string)
    ensures id !in taken
  {
    ghost var n := LongerThanAll(taken);
    assert seq(n, _ => '0') !in taken;
    id :| id !in taken;
  }
}
