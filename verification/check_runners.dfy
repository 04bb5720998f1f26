/** The check runner (`CheckRunner` in CheckRunner.cxx): it merges received
    monitor objects into a revision-stamped map, runs the checks whose
    policy says they are ready, and advances a global revision once per
    cycle.

    Storing and sending quality objects, logging, monitoring metrics and
    configuration lookups are left out; the triggered checks are returned
    instead of being stored and sent.
 */
module CheckRunners {
  import opened Wrappers
  import opened Framework
  import opened Objects
  import opened Checks

  const CheckRunnerIdString: string := "QC-CHECK-RUNNER"
  const EmptyTaskNameError: Error := FatalException("Empty taskName for checker's data description")

  /** `createCheckRunnerDataDescription`. */
  function CreateCheckRunnerDataDescription(taskName: string): (r: Result<Description>)
    ensures r.Err? <==> taskName == []
    ensures r.Err? ==> r.error == EmptyTaskNameError
    ensures r.Ok? ==> r.value == Literal(TruncatedDescription(taskName))
  {
    if taskName == [] then Err(EmptyTaskNameError)
    else Ok(Literal(TruncatedDescription(taskName)))
  }

  // ---------------------------------------------------------------------------
  // Runner names

  const DecimalDigits: string := "0123456789"
  const UpperCaseLetters: string := "ABCDEFGHIJKLMNOPQRSTUVWXYZ"
  const LowerCaseLetters: string := "abcdefghijklmnopqrstuvwxyz"
  /** The alphabet of the hashed runner-name suffix. */
  const Alphanumeric: string := DecimalDigits + UpperCaseLetters + LowerCaseLetters
  /** Number of hashed characters. */
  const NameLength: nat := 4

  /** `std::size_t`, the result type of `std::hash`. */
  type SizeT = x: nat | x < 0x1_0000_0000_0000_0000

  function Pow(b: nat, e: nat): (r: nat)
    ensures b > 0 ==> r > 0
  {
    if e == 0 then 1 else b * Pow(b, e - 1)
  }

  /** `count` base-62 digits of `num` over `Alphanumeric`, least significant first. */
  function Digits(num: nat, count: nat): (s: string)
    ensures |s| == count
    ensures forall k :: 0 <= k < |s| ==> s[k] in Alphanumeric
  {
    if count == 0 then [] else [Alphanumeric[num % 62]] + Digits(num / 62, count - 1)
  }

  /** The position of an alphabet character. */
  function DigitValue(c: char): nat {
    if '0' <= c <= '9' then c as int - '0' as int
    else if 'A' <= c <= 'Z' then 10 + (c as int - 'A' as int)
    else if 'a' <= c <= 'z' then 36 + (c as int - 'a' as int)
    else 0
  }

  lemma DigitValueOfAlphanumeric(d: nat)
    requires d < 62
    ensures DigitValue(Alphanumeric[d]) == d
  {
    if d < 10 {
      assert Alphanumeric[d] == DecimalDigits[d];
    } else if d < 36 {
      assert Alphanumeric[d] == UpperCaseLetters[d - 10];
    } else {
      assert Alphanumeric[d] == LowerCaseLetters[d - 36];
    }
  }

  /** Reads a string of digits back, least significant first. */
  function Decode(s: string): nat {
    if s == [] then 0 else DigitValue(s[0]) + 62 * Decode(s[1..])
  }

  lemma MulMonotone(m: nat, a: nat, b: nat)
    requires a <= b
    ensures m * a <= m * b
  {
    assert m * b - m * a == m * (b - a);
  }

  lemma Distribute(a: nat, x: nat, y: nat)
    ensures a * (x + y) == a * x + a * y
  {
  }

  lemma Associate(a: nat, p: nat, q: nat)
    ensures a * (p * q) == (a * p) * q
  {
  }

  lemma DivMod(n: nat, m: nat)
    requires m > 0
    ensures n == m * (n / m) + n % m && n % m < m
  {
  }

  /** Quotient and remainder are the only ones. */
  lemma ModUnique(n: nat, m: nat, k: nat, b: nat)
    requires m > 0 && b < m && n == m * k + b
    ensures n / m == k && n % m == b
  {
    var q, r := n / m, n % m;
    assert n == m * q + r;
    if q > k {
      MulMonotone(m, k + 1, q);
      Distribute(m, k, 1);
    } else if q < k {
      MulMonotone(m, q + 1, k);
      Distribute(m, q, 1);
    }
  }

  /** Division into `a * p` classes splits into a remainder modulo `a` and a
      remainder modulo `p` of the quotient. */
  lemma ModSplit(n: nat, a: nat, p: nat)
    requires a > 0 && p > 0
    ensures n % (a * p) == n % a + a * ((n / a) % p)
  {
    var q, r := n / a, n % a;
    var q1, q2 := q / p, q % p;
    DivMod(n, a);
    DivMod(q, p);
    Distribute(a, p * q1, q2);
    Associate(a, p, q1);
    MulMonotone(a, q2, p - 1);
    Distribute(a, p - 1, 1);
    ModUnique(n, a * p, q1, a * q2 + r);
  }

  /** Decoding the digits gives back the number modulo 62^count. */
  lemma {:induction false} DecodeDigits(num: nat, count: nat)
    ensures Decode(Digits(num, count)) == num % Pow(62, count)
  {
    if count > 0 {
      var s := Digits(num, count);
      DecodeDigits(num / 62, count - 1);
      DigitValueOfAlphanumeric(num % 62);
      assert s[0] == Alphanumeric[num % 62] && s[1..] == Digits(num / 62, count - 1);
      ModSplit(num, 62, Pow(62, count - 1));
    }
  }

  /** The check names glued together, in order. */
  function ConcatNames(checks: seq<Check>): string {
    if checks == [] then [] else GetName(checks[0]) + ConcatNames(checks[1..])
  }

  /** `createCheckRunnerName`: the id string and a dash, then the single
      check's name, or else four base-62 digits of the hash of all names. */
  function CreateCheckRunnerName(checks: seq<Check>, hash: string -> SizeT): (name: string)
    ensures |checks| == 1 ==> name == CheckRunnerIdString + "-" + GetName(checks[0])
    ensures |checks| != 1 ==>
              && |name| == |CheckRunnerIdString| + 1 + NameLength
              && name[..|CheckRunnerIdString| + 1] == CheckRunnerIdString + "-"
              && (forall k :: |CheckRunnerIdString| + 1 <= k < |name| ==> name[k] in Alphanumeric)
              && Decode(name[|CheckRunnerIdString| + 1..]) == hash(ConcatNames(checks)) % Pow(62, NameLength)
  {
    var prefix := CheckRunnerIdString + "-";
    if |checks| == 1 then prefix + GetName(checks[0])
    else
      var suffix := Digits(hash(ConcatNames(checks)), NameLength);
      DecodeDigits(hash(ConcatNames(checks)), NameLength);
      assert (prefix + suffix)[|prefix|..] == suffix;
      assert (prefix + suffix)[..|prefix|] == prefix;
      prefix + suffix
  }

  /** Grouped checks are told apart only through the concatenation of their
      names: two groups whose names glue to the same string get the same
      runner name. */
  lemma GroupNameDependsOnConcatenation(c1: seq<Check>, c2: seq<Check>, hash: string -> SizeT)
    requires |c1| != 1 && |c2| != 1 && ConcatNames(c1) == ConcatNames(c2)
    ensures CreateCheckRunnerName(c1, hash) == CreateCheckRunnerName(c2, hash)
  {
  }

  /** `collectOutputs`: one output per check, in check order. */
  method CollectOutputs(checks: seq<Check>) returns (outputs: seq<OutputSpec>)
    ensures |outputs| == |checks|
    ensures forall i :: 0 <= i < |checks| ==> outputs[i] == checks[i].outputSpec
  {
    outputs := [];
    var i := 0;
    while i < |checks|
      invariant 0 <= i <= |checks|
      invariant |outputs| == i
      invariant forall j :: 0 <= j < i ==> outputs[j] == checks[j].outputSpec
    {
      outputs := outputs + [checks[i].outputSpec];
      i := i + 1;
    }
  }

  // ---------------------------------------------------------------------------
  // The runner

  datatype Runner = Runner(
    deviceName: string,
    checks: seq<Check>,
    inputs: seq<InputSpec>,
    outputs: seq<OutputSpec>,
    monitorObjects: map<string, MonitorObject>,
    moRevision: map<string, Revision>,
    globalRevision: Revision)

  /** No stamp and no check revision is ahead of the global revision. */
  ghost predicate RevisionsBounded(r: Runner) {
    && (forall n :: n in r.moRevision ==> r.moRevision[n] <= r.globalRevision)
    && (forall i :: 0 <= i < |r.checks| ==> r.checks[i].revision <= r.globalRevision)
  }

  /** `CheckRunner(checks, configurationSource)`. The grouped checks share
      the first check's inputs, so there must be one. `mGlobalRevision` is
      never initialised, so its first value is a parameter. */
  method NewRunner(checks: seq<Check>, hash: string -> SizeT, initialRevision: Revision) returns (r: Runner)
    requires |checks| > 0
    requires forall i :: 0 <= i < |checks| ==> checks[i].revision == 0
    ensures r.deviceName == CreateCheckRunnerName(checks, hash)
    ensures r.checks == checks && r.inputs == checks[0].inputs
    ensures |r.outputs| == |checks| && forall i :: 0 <= i < |checks| ==> r.outputs[i] == checks[i].outputSpec
    ensures r.monitorObjects == map[] && r.moRevision == map[] && r.globalRevision == initialRevision
    ensures RevisionsBounded(r)
  {
    var outputs := CollectOutputs(checks);
    r := Runner(CreateCheckRunnerName(checks, hash), checks, checks[0].inputs, outputs, map[], map[], initialRevision);
  }

  /** `update(mo)`: the object is stored under its full name and that name
      is stamped with the current global revision; nothing else changes. */
  function Update(r: Runner, mo: MonitorObject): (r': Runner)
    ensures mo.fullName in r'.monitorObjects && r'.monitorObjects[mo.fullName] == mo
    ensures mo.fullName in r'.moRevision && r'.moRevision[mo.fullName] == r.globalRevision
    ensures forall n :: n != mo.fullName ==>
              (n in r'.monitorObjects <==> n in r.monitorObjects) &&
              (n in r.monitorObjects ==> r'.monitorObjects[n] == r.monitorObjects[n]) &&
              (n in r'.moRevision <==> n in r.moRevision) &&
              (n in r.moRevision ==> r'.moRevision[n] == r.moRevision[n])
    ensures r' == r.(monitorObjects := r'.monitorObjects, moRevision := r'.moRevision)
  {
    r.(monitorObjects := r.monitorObjects[mo.fullName := mo],
       moRevision := r.moRevision[mo.fullName := r.globalRevision])
  }

  /** The objects updated in order. */
  function StampAll(r: Runner, mos: seq<MonitorObject>): (r': Runner)
    ensures r' == r.(monitorObjects := r'.monitorObjects, moRevision := r'.moRevision)
    decreases |mos|
  {
    if mos == [] then r else Update(StampAll(r, mos[..|mos| - 1]), mos[|mos| - 1])
  }

  /** The position of the last object in `mos` named `n`, or -1 if none is. */
  function LastWith(mos: seq<MonitorObject>, n: string): (k: int)
    ensures -1 <= k < |mos|
    ensures k >= 0 ==> mos[k].fullName == n && forall k' :: k < k' < |mos| ==> mos[k'].fullName != n
    ensures k < 0 ==> forall k' :: 0 <= k' < |mos| ==> mos[k'].fullName != n
    decreases |mos|
  {
    if mos == [] then -1
    else if mos[|mos| - 1].fullName == n then |mos| - 1
    else LastWith(mos[..|mos| - 1], n)
  }

  /** After stamping a batch, a received name holds the last object received
      under it and this cycle's revision. */
  lemma {:induction false} StampAllReceived(r: Runner, mos: seq<MonitorObject>, n: string)
    requires LastWith(mos, n) >= 0
    ensures n in StampAll(r, mos).monitorObjects && StampAll(r, mos).monitorObjects[n] == mos[LastWith(mos, n)]
    ensures n in StampAll(r, mos).moRevision && StampAll(r, mos).moRevision[n] == r.globalRevision
    decreases |mos|
  {
    var init := mos[..|mos| - 1];
    if mos[|mos| - 1].fullName != n {
      StampAllReceived(r, init, n);
    }
  }

  /** A name received in no object of the batch keeps its object and stamp. */
  lemma {:induction false} StampAllUntouched(r: Runner, mos: seq<MonitorObject>, n: string)
    requires LastWith(mos, n) < 0
    ensures n in StampAll(r, mos).monitorObjects <==> n in r.monitorObjects
    ensures n in r.monitorObjects ==> StampAll(r, mos).monitorObjects[n] == r.monitorObjects[n]
    ensures n in StampAll(r, mos).moRevision <==> n in r.moRevision
    ensures n in r.moRevision ==> StampAll(r, mos).moRevision[n] == r.moRevision[n]
    decreases |mos|
  {
    if mos != [] {
      StampAllUntouched(r, mos[..|mos| - 1], n);
    }
  }

  /** The non-null entries of a received object array, in order. */
  function NonNull(entries: seq<Option<MonitorObject>>): (mos: seq<MonitorObject>)
    ensures forall mo :: mo in mos <==> Some(mo) in entries
  {
    if entries == [] then []
    else (if entries[0].Some? then [entries[0].value] else []) + NonNull(entries[1..])
  }

  /** Everything received this cycle: for each input in order whose data
      reference has both header and payload (`fetch` gives `Some`), the
      non-null objects of its array. */
  function Received(inputs: seq<InputSpec>, fetch: string -> Option<seq<Option<MonitorObject>>>): (mos: seq<MonitorObject>)
    ensures forall mo :: mo in mos <==>
              exists k :: 0 <= k < |inputs| && fetch(inputs[k].binding).Some? && Some(mo) in fetch(inputs[k].binding).value
  {
    if inputs == [] then []
    else
      var here := match fetch(inputs[0].binding) case Some(entries) => NonNull(entries) case None => [];
      var rest := Received(inputs[1..], fetch);
      assert forall k :: 1 <= k < |inputs| ==> inputs[1..][k - 1] == inputs[k];
      here + rest
  }

  /** The received objects keep the array's order: a single entry gives its
      object or nothing, and the entries of two arrays glued together give
      the objects of the first followed by those of the second. */
  lemma {:induction false} NonNullOrder(a: seq<Option<MonitorObject>>, b: seq<Option<MonitorObject>>, mo: MonitorObject)
    ensures NonNull([Some(mo)]) == [mo] && NonNull([None]) == []
    ensures NonNull(a + b) == NonNull(a) + NonNull(b)
    decreases |a|
  {
    if a != [] {
      assert (a + b)[0] == a[0] && (a + b)[1..] == a[1..] + b;
      NonNullOrder(a[1..], b, mo);
      var head := if a[0].Some? then [a[0].value] else [];
      assert NonNull(a + b) == head + (NonNull(a[1..]) + NonNull(b));
      assert head + (NonNull(a[1..]) + NonNull(b)) == (head + NonNull(a[1..])) + NonNull(b);
    } else {
      assert a + b == b;
    }
  }

  /** The received objects come input by input, in input order: one input
      gives the non-null objects of its array (or nothing without data), and
      two input lists glued together give the objects of the first followed
      by those of the second. */
  lemma {:induction false} ReceivedOrder(a: seq<InputSpec>, b: seq<InputSpec>, input: InputSpec,
                                         fetch: string -> Option<seq<Option<MonitorObject>>>)
    ensures Received([input], fetch) == match fetch(input.binding) case Some(entries) => NonNull(entries) case None => []
    ensures Received(a + b, fetch) == Received(a, fetch) + Received(b, fetch)
    decreases |a|
  {
    if a != [] {
      assert (a + b)[0] == a[0] && (a + b)[1..] == a[1..] + b;
      ReceivedOrder(a[1..], b, input, fetch);
      var here := match fetch(a[0].binding) case Some(entries) => NonNull(entries) case None => [];
      assert Received(a + b, fetch) == here + (Received(a[1..], fetch) + Received(b, fetch));
      assert here + (Received(a[1..], fetch) + Received(b, fetch)) == (here + Received(a[1..], fetch)) + Received(b, fetch);
    } else {
      assert a + b == b;
    }
  }

  /** The runner's objects after a check has run: every name keeps its
      object unless the check painted the object under it. */
  function Repainted(objs: map<string, MonitorObject>, painted: map<string, MonitorObject>): (r: map<string, MonitorObject>)
    ensures r.Keys == objs.Keys
  {
    map n | n in objs :: if n in painted then painted[n] else objs[n]
  }

  /** The runner's objects after the ready checks among `cs` have run, in
      order: each sees the objects as the checks before it painted them. */
  function ObjectsAfter(cs: seq<Check>, stamps: map<string, Revision>, objs: map<string, MonitorObject>,
                        policy: Policy, evaluate: Evaluator): map<string, MonitorObject>
    decreases |cs|
  {
    if cs == [] then objs
    else
      var before := ObjectsAfter(cs[..|cs| - 1], stamps, objs, policy, evaluate);
      var c := cs[|cs| - 1];
      if policy(c, stamps) then Repainted(before, evaluate(c, before).1) else before
  }

  /** Running checks paints objects but never adds or removes a name. */
  lemma {:induction false} ObjectsAfterKeys(cs: seq<Check>, stamps: map<string, Revision>, objs: map<string, MonitorObject>,
                                            policy: Policy, evaluate: Evaluator)
    ensures ObjectsAfter(cs, stamps, objs, policy, evaluate).Keys == objs.Keys
    decreases |cs|
  {
    if cs != [] {
      ObjectsAfterKeys(cs[..|cs| - 1], stamps, objs, policy, evaluate);
    }
  }

  /** Checks that do not beautify leave the runner's objects as they were. */
  lemma {:induction false} UnpaintedObjectsKept(cs: seq<Check>, stamps: map<string, Revision>, objs: map<string, MonitorObject>,
                                                policy: Policy, evaluate: Evaluator)
    requires forall c, o :: evaluate(c, o).1 == map[]
    ensures ObjectsAfter(cs, stamps, objs, policy, evaluate) == objs
    decreases |cs|
  {
    if cs != [] {
      var before := ObjectsAfter(cs[..|cs| - 1], stamps, objs, policy, evaluate);
      UnpaintedObjectsKept(cs[..|cs| - 1], stamps, objs, policy, evaluate);
      assert Repainted(before, map[]) == before;
    }
  }

  /** `check(moMap)`: every check whose policy is satisfied by the stamps is
      run on the objects and then records the global revision, whether or not
      it produced a quality object; the triggered checks are the ready ones
      that did, by position, in check order. Each ready check sees the objects
      as the ready checks before it painted them. Unready checks are
      untouched and paint nothing. */
  method CheckAll(r: Runner, policy: Policy, evaluate: Evaluator)
    returns (checks: seq<Check>, triggered: seq<nat>, objects: map<string, MonitorObject>)
    ensures |checks| == |r.checks|
    ensures forall i :: 0 <= i < |r.checks| ==>
              checks[i] == if policy(r.checks[i], r.moRevision) then UpdateRevision(r.checks[i], r.globalRevision)
                           else r.checks[i]
    ensures forall i :: i in triggered <==>
              && 0 <= i < |r.checks| && policy(r.checks[i], r.moRevision)
              && evaluate(r.checks[i], ObjectsAfter(r.checks[..i], r.moRevision, r.monitorObjects, policy, evaluate)).0.Some?
    ensures forall p, q :: 0 <= p < q < |triggered| ==> triggered[p] < triggered[q]
    ensures objects == ObjectsAfter(r.checks, r.moRevision, r.monitorObjects, policy, evaluate)
  {
    checks := r.checks;
    triggered := [];
    objects := r.monitorObjects;
    var i := 0;
    while i < |r.checks|
      invariant 0 <= i <= |r.checks|
      invariant |checks| == |r.checks|
      invariant forall j :: 0 <= j < |r.checks| ==>
                  checks[j] == if j < i && policy(r.checks[j], r.moRevision)
                               then UpdateRevision(r.checks[j], r.globalRevision) else r.checks[j]
      invariant forall j :: j in triggered <==>
                  && 0 <= j < i && policy(r.checks[j], r.moRevision)
                  && evaluate(r.checks[j], ObjectsAfter(r.checks[..j], r.moRevision, r.monitorObjects, policy, evaluate)).0.Some?
      invariant forall p, q :: 0 <= p < q < |triggered| ==> triggered[p] < triggered[q]
      invariant forall p :: 0 <= p < |triggered| ==> triggered[p] < i
      invariant objects == ObjectsAfter(r.checks[..i], r.moRevision, r.monitorObjects, policy, evaluate)
    {
      assert r.checks[..i + 1][..i] == r.checks[..i];
      var check := checks[i];
      if policy(check, r.moRevision) {
        var result := evaluate(check, objects);
        if result.0.Some? {
          triggered := triggered + [i];
        }
        objects := Repainted(objects, result.1);
        checks := checks[i := UpdateRevision(check, r.globalRevision)];
      }
      i := i + 1;
    }
    assert r.checks[..i] == r.checks;
  }

  /** The increment of an `unsigned int`: one more, except that the largest
      value wraps to 0. */
  function Increment(x: Revision): (y: Revision)
    ensures x < RevisionModulus - 1 ==> y == x + 1
    ensures x == RevisionModulus - 1 ==> y == 0
  {
    (x + 1) % RevisionModulus
  }

  /** `updateRevision`: the global revision is incremented; if that wraps to
      0 it is incremented once more, to 1, and every check's revision is
      reset to 0. The global revision is never 0 afterwards. */
  function UpdateGlobalRevision(r: Runner): (r': Runner)
    ensures r'.globalRevision != 0
    ensures Increment(r.globalRevision) != 0 ==> r'.globalRevision == r.globalRevision + 1 && r'.checks == r.checks
    ensures Increment(r.globalRevision) == 0 ==>
              && r.globalRevision == RevisionModulus - 1
              && r'.globalRevision == 1
              && |r'.checks| == |r.checks|
              && forall i :: 0 <= i < |r.checks| ==> r'.checks[i] == UpdateRevision(r.checks[i], 0)
    ensures r' == r.(globalRevision := r'.globalRevision, checks := r'.checks)
  {
    var next := Increment(r.globalRevision);
    if next != 0 then r.(globalRevision := next)
    else r.(globalRevision := Increment(next),
            checks := seq(|r.checks|, i requires 0 <= i < |r.checks| => UpdateRevision(r.checks[i], 0)))
  }

  /** One call of `run`: stamp everything received, run the ready checks
      against the stamped objects (keeping what they paint), then advance the
      global revision. The checks therefore see this cycle's stamps at the
      revision before the increment, and record that same revision. */
  method RunCycle(r: Runner, fetch: string -> Option<seq<Option<MonitorObject>>>, policy: Policy, evaluate: Evaluator)
    returns (r': Runner, triggered: seq<nat>)
    ensures var stamped := StampAll(r, Received(r.inputs, fetch));
            && r'.monitorObjects == ObjectsAfter(r.checks, stamped.moRevision, stamped.monitorObjects, policy, evaluate)
            && r'.monitorObjects.Keys == stamped.monitorObjects.Keys
            && r'.moRevision == stamped.moRevision
            && (forall i :: i in triggered <==>
                  && 0 <= i < |r.checks| && policy(r.checks[i], stamped.moRevision)
                  && evaluate(r.checks[i], ObjectsAfter(r.checks[..i], stamped.moRevision, stamped.monitorObjects, policy, evaluate)).0.Some?)
    ensures forall mo :: mo in Received(r.inputs, fetch) ==>
              mo.fullName in r'.moRevision && r'.moRevision[mo.fullName] == r.globalRevision
    ensures r'.globalRevision == (if Increment(r.globalRevision) == 0 then 1 else r.globalRevision + 1)
    ensures |r'.checks| == |r.checks|
    ensures forall i :: 0 <= i < |r.checks| ==>
              r'.checks[i].revision ==
                if Increment(r.globalRevision) == 0 then 0
                else if policy(r.checks[i], StampAll(r, Received(r.inputs, fetch)).moRevision) then r.globalRevision
                else r.checks[i].revision
    ensures forall i :: 0 <= i < |r.checks| ==> GetName(r'.checks[i]) == GetName(r.checks[i])
    ensures r'.deviceName == r.deviceName && r'.inputs == r.inputs && r'.outputs == r.outputs
    ensures RevisionsBounded(r) && Increment(r.globalRevision) != 0 ==> RevisionsBounded(r')
  {
    var received := Received(r.inputs, fetch);
    var stamped := StampAll(r, received);
    forall mo | mo in received
      ensures mo.fullName in stamped.moRevision && stamped.moRevision[mo.fullName] == r.globalRevision
    {
      var k :| 0 <= k < |received| && received[k] == mo;
      assert LastWith(received, mo.fullName) >= 0;
      StampAllReceived(r, received, mo.fullName);
    }
    if RevisionsBounded(r) {
      forall n | n in stamped.moRevision
        ensures stamped.moRevision[n] <= r.globalRevision
      {
        if LastWith(received, n) >= 0 {
          StampAllReceived(r, received, n);
        } else {
          StampAllUntouched(r, received, n);
        }
      }
    }
    var checks, objects;
    checks, triggered, objects := CheckAll(stamped, policy, evaluate);
    ObjectsAfterKeys(r.checks, stamped.moRevision, stamped.monitorObjects, policy, evaluate);
    r' := UpdateGlobalRevision(stamped.(checks := checks, monitorObjects := objects));
  }

  /** With the "some dependency changed" policy, a check that has run since
      its dependencies were last stamped is not run again on the same
      objects: if the next batch holds none of its dependencies, the stamps
      after that batch still show nothing newer than its revision. Other
      objects may carry newer stamps. */
  lemma UnchangedDependenciesNotRerun(r: Runner, mos: seq<MonitorObject>, deps: set<string>, c: Check)
    requires forall n :: n in deps && n in r.moRevision ==> r.moRevision[n] <= c.revision
    requires forall k :: 0 <= k < |mos| ==> mos[k].fullName !in deps
    ensures !AnyNewer(deps, c, StampAll(r, mos).moRevision)
  {
    forall n | n in deps
      ensures !(n in StampAll(r, mos).moRevision && StampAll(r, mos).moRevision[n] > c.revision)
    {
      StampAllUntouched(r, mos, n);
    }
  }

  /** And conversely: once the global revision has moved past a check's
      revision, receiving any one of its dependencies makes it ready. */
  lemma ReceivedDependencyMakesReady(r: Runner, mos: seq<MonitorObject>, deps: set<string>, c: Check, k: nat)
    requires k < |mos| && mos[k].fullName in deps
    requires c.revision < r.globalRevision
    ensures AnyNewer(deps, c, StampAll(r, mos).moRevision)
  {
    StampAllReceived(r, mos, mos[k].fullName);
  }

  /** After the global revision wraps, every check has revision 0, so with
      the "some dependency changed" policy each check with a dependency
      stamped at a non-zero revision is ready. */
  lemma WrapMakesChecksReady(r: Runner, deps: set<string>, n: string, i: nat)
    requires Increment(r.globalRevision) == 0 && i < |r.checks|
    requires n in deps && n in r.moRevision && r.moRevision[n] != 0
    ensures AnyNewer(deps, UpdateGlobalRevision(r).checks[i], UpdateGlobalRevision(r).moRevision)
  {
  }
}
