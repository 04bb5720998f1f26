/** A check as the scheduler sees it (`Check` in Check.h): its name, the
    revision it last ran at, its output and its inputs.

    The check's own logic (`Check::check` with its beautification, loading
    the check module) and its readiness policy live in Check.cxx, which is
    not part of this model: both are parameters of the scheduler.
 */
module Checks {
  import opened Wrappers
  import opened Framework
  import opened Objects

  /** `unsigned int` revisions wrap modulo 2^32. */
  const RevisionModulus: nat := 0x1_0000_0000

  type Revision = x: nat | x < 0x1_0000_0000

  datatype Check = Check(name: string, revision: Revision, outputSpec: OutputSpec, inputs: seq<InputSpec>)

  /** A freshly built check has not run yet: its revision is 0. */
  function NewCheck(name: string, outputSpec: OutputSpec, inputs: seq<InputSpec>): (c: Check)
    ensures GetName(c) == name && c.revision == 0
    ensures c.outputSpec == outputSpec && c.inputs == inputs
  {
    Check(name, 0, outputSpec, inputs)
  }

  /** `getName()`: fixed at construction. */
  function GetName(c: Check): string {
    c.name
  }

  /** `updateRevision(revision)`: the stored revision is overwritten and
      nothing else about the check changes. */
  function UpdateRevision(c: Check, revision: Revision): (r: Check)
    ensures r.revision == revision
    ensures GetName(r) == GetName(c) && r.outputSpec == c.outputSpec && r.inputs == c.inputs
  {
    c.(revision := revision)
  }

  /** Only the latest revision given is remembered. */
  lemma UpdateRevisionOverwrites(c: Check, a: Revision, b: Revision)
    ensures UpdateRevision(UpdateRevision(c, a), b) == UpdateRevision(c, b)
    ensures UpdateRevision(c, c.revision) == c
  {
  }

  /** `isReady(revisionMap)`: whether the check's objects changed according
      to its configured policy. The policy is taken to be stateless and to
      leave the stamps alone. */
  type Policy = (Check, map<string, Revision>) -> bool

  /** `check(moMap)`: the check's verdict on the current objects, or `None`
      for the null quality object, together with the objects as the check
      left them. The runner makes one copy of its map per cycle and hands
      that same copy to every check of the cycle. The monitor objects in it
      are shared with the runner, so beautifying one paints the runner's
      object, and later checks of the cycle see the painting. Checks are
      taken to paint only objects already in the copy, not to insert, erase
      or replace its entries. */
  type Evaluator = (Check, map<string, MonitorObject>) -> (Option<QualityObject>, map<string, MonitorObject>)

  /** An example policy, "some dependency changed since my last run": a
      check is ready when one of `deps` carries a stamp newer than the
      revision the check last ran at. */
  predicate AnyNewer(deps: set<string>, c: Check, stamps: map<string, Revision>) {
    exists n :: n in deps && n in stamps && stamps[n] > c.revision
  }
}
