/** An alarm: a parsed condition, the values it reads, and the routing of
    incoming data to those values (`Alarm` in Alarm.cxx).

    The alarm owns the value list; the expression's comparison leaves and
    the update map name values by their position in it.
 */
module Alarms {
  import opened Wrappers
  import opened Qualities
  import opened Framework
  import opened Objects
  import opened Values
  import opened Expressions
  import Text

  const AlarmIdString: string := "QC-ALARM-"
  /** The binding of the alarm's single output. */
  const AlarmOutputBinding: string := "al"

  const EmptyAlarmNameError: Error := FatalException("Empty alarm name for data description")
  const ParserTerminatedError: Error := FatalException("Parser terminated incorectly")
  const EmptyAfterParsingError: Error := FatalException("Expression empty after parsing")

  datatype Alarm = Alarm(
    name: string,
    deviceName: string,
    outputSpec: OutputSpec,
    expression: Option<Expr>,
    values: seq<Value>,
    updateMap: map<string, seq<ValueRef>>,
    inputs: seq<InputSpec>)

  /** `createAlarmDataDescription`. */
  function CreateAlarmDataDescription(alarmName: string): (r: Result<Description>)
    ensures r.Err? <==> alarmName == []
    ensures r.Err? ==> r.error == EmptyAlarmNameError
    ensures r.Ok? ==> r.value == Literal(TruncatedDescription(alarmName))
  {
    if alarmName == [] then Err(EmptyAlarmNameError)
    else Ok(Literal(TruncatedDescription(alarmName)))
  }

  // ---------------------------------------------------------------------------
  // Building the alarm

  /** `register_value`: the value is appended; nothing else changes. */
  function RegisterValue(a: Alarm, v: Value): (r: Alarm)
    ensures |r.values| == |a.values| + 1 && r.values[|a.values|] == v
    ensures r.values[..|a.values|] == a.values
    ensures r == a.(values := r.values)
  {
    a.(values := a.values + [v])
  }

  /** `set_expression`: the root is replaced; nothing else changes. */
  function SetExpression(a: Alarm, e: Expr): (r: Alarm)
    ensures r.expression == Some(e)
    ensures r == a.(expression := r.expression)
  {
    a.(expression := Some(e))
  }

  /** What the condition parser does to the alarm while it runs: it calls
      back `register_value` and `set_expression`, or one of its grammar
      actions throws (a value or operator that does not parse, a comparison
      of values of different types), which ends the parse. */
  datatype ParserCall = RegisterCall(value: Value) | SetExpressionCall(root: Expr) | RaiseCall(error: Error)

  /** The values registered by a sequence of parser calls, in call order. */
  function Registered(calls: seq<ParserCall>): seq<Value>
    decreases |calls|
  {
    if calls == [] then []
    else
      var last := calls[|calls| - 1];
      Registered(calls[..|calls| - 1]) + (if last.RegisterCall? then [last.value] else [])
  }

  /** Whether some parser call set the root. */
  predicate SetsRoot(calls: seq<ParserCall>) {
    exists k :: 0 <= k < |calls| && calls[k].SetExpressionCall?
  }

  /** The root given by the last `set_expression` call, if any: each call
      replaces the previous root. */
  function LastRoot(calls: seq<ParserCall>): (e: Option<Expr>)
    ensures e.Some? <==> SetsRoot(calls)
    decreases |calls|
  {
    if calls == [] then None
    else
      var last := calls[|calls| - 1];
      if last.SetExpressionCall? then Some(last.root)
      else
        var init := calls[..|calls| - 1];
        assert forall k :: 0 <= k < |init| ==> init[k] == calls[k];
        LastRoot(init)
  }

  /** The position of the first parser call that throws, or -1 if none does. */
  function FirstRaised(calls: seq<ParserCall>): (k: int)
    ensures -1 <= k < |calls|
    ensures k >= 0 ==> calls[k].RaiseCall? && forall k' :: 0 <= k' < k ==> !calls[k'].RaiseCall?
    ensures k < 0 ==> forall k' :: 0 <= k' < |calls| ==> !calls[k'].RaiseCall?
  {
    if calls == [] then -1
    else if calls[0].RaiseCall? then 0
    else
      var k := FirstRaised(calls[1..]);
      assert forall k' :: 1 <= k' < |calls| ==> calls[1..][k' - 1] == calls[k'];
      if k < 0 then -1 else k + 1
  }

  /** The alarm after the parser's calls, in order; a call that throws
      leaves the alarm as it was. */
  function ApplyCalls(a: Alarm, calls: seq<ParserCall>): (r: Alarm)
    ensures r.values == a.values + Registered(calls)
    ensures r.expression.Some? <==> a.expression.Some? || SetsRoot(calls)
    ensures r.expression == if LastRoot(calls).Some? then LastRoot(calls) else a.expression
    ensures r == a.(values := r.values, expression := r.expression)
    decreases |calls|
  {
    if calls == [] then a
    else
      var init := calls[..|calls| - 1];
      var b := ApplyCalls(a, init);
      var last := calls[|calls| - 1];
      assert forall k :: 0 <= k < |init| ==> init[k] == calls[k];
      match last
      case RegisterCall(v) => RegisterValue(b, v)
      case SetExpressionCall(e) => SetExpression(b, e)
      case RaiseCall(_) => b
  }

  /** `parse_string`, given what the parser did: the calls it made and its
      return status. An exception thrown while parsing is passed on (the
      first one, since it ends the parse); otherwise a non-zero status, or
      no root after parsing, is fatal. */
  function ParseString(a: Alarm, calls: seq<ParserCall>, status: int): (r: Result<Alarm>)
    ensures r.Ok? <==> FirstRaised(calls) < 0 && status == 0 && (a.expression.Some? || SetsRoot(calls))
    ensures FirstRaised(calls) >= 0 ==> r == Err(calls[FirstRaised(calls)].error)
    ensures FirstRaised(calls) < 0 && status != 0 ==> r == Err(ParserTerminatedError)
    ensures FirstRaised(calls) < 0 && status == 0 && r.Err? ==> r == Err(EmptyAfterParsingError)
    ensures r.Ok? ==> r.value == ApplyCalls(a, calls) && r.value.expression.Some?
  {
    var b := ApplyCalls(a, calls);
    var k := FirstRaised(calls);
    if k >= 0 then Err(calls[k].error)
    else if status != 0 then Err(ParserTerminatedError)
    else if b.expression.None? then Err(EmptyAfterParsingError)
    else Ok(b)
  }

  // ---------------------------------------------------------------------------
  // gather_inputs

  /** The (value position, input) pairs in the order `gather_inputs` visits them. */
  function Pairs(values: seq<Value>): seq<(ValueRef, InputSpec)>
    decreases |values|
  {
    if values == [] then []
    else
      var n := |values| - 1;
      Pairs(values[..n]) + Segment(n, Inputs(values[n]))
  }

  /** The visited pairs depend only on each value's inputs, so updating
      values keeps them. */
  lemma {:induction false} PairsUnderUpdate(vs: seq<Value>, ws: seq<Value>)
    requires |vs| == |ws|
    requires forall i :: 0 <= i < |vs| ==> Inputs(ws[i]) == Inputs(vs[i])
    ensures Pairs(ws) == Pairs(vs)
    decreases |vs|
  {
    if vs != [] {
      var n := |vs| - 1;
      PairsUnderUpdate(vs[..n], ws[..n]);
    }
  }

  /** The pairs of one value's inputs. */
  function Segment(pos: ValueRef, ins: seq<InputSpec>): seq<(ValueRef, InputSpec)>
    decreases |ins|
  {
    if ins == [] then [] else Segment(pos, ins[..|ins| - 1]) + [(pos, ins[|ins| - 1])]
  }

  lemma {:induction false} SegmentMembership(pos: ValueRef, ins: seq<InputSpec>, p: (ValueRef, InputSpec))
    ensures p in Segment(pos, ins) <==> p.0 == pos && p.1 in ins
    decreases |ins|
  {
    if ins != [] {
      var init := ins[..|ins| - 1];
      assert ins == init + [ins[|ins| - 1]];
      SegmentMembership(pos, init, p);
    }
  }

  /** Every pair is an input of the value at its position, and every input
      of every value appears. */
  lemma {:induction false} PairsMembership(values: seq<Value>, p: (ValueRef, InputSpec))
    ensures p in Pairs(values) <==> p.0 < |values| && p.1 in Inputs(values[p.0])
    decreases |values|
  {
    if values != [] {
      var n := |values| - 1;
      var init := values[..n];
      var seg := Segment(n, Inputs(values[n]));
      assert Pairs(values) == Pairs(init) + seg;
      PairsMembership(init, p);
      SegmentMembership(n, Inputs(values[n]), p);
      if p.0 < n {
        assert init[p.0] == values[p.0];
        assert p !in seg;
      } else {
        assert p !in Pairs(init);
      }
    }
  }

  /** The positions listed under binding `b`, in visiting order. */
  function PositionsUnder(ps: seq<(ValueRef, InputSpec)>, b: string): seq<ValueRef>
    decreases |ps|
  {
    if ps == [] then []
    else
      var last := ps[|ps| - 1];
      PositionsUnder(ps[..|ps| - 1], b) + (if last.1.binding == b then [last.0] else [])
  }

  /** A position is listed under `b` exactly when one of its pairs has binding `b`. */
  lemma {:induction false} PositionsUnderMembership(ps: seq<(ValueRef, InputSpec)>, b: string, i: ValueRef)
    ensures i in PositionsUnder(ps, b) <==> exists k :: 0 <= k < |ps| && ps[k].0 == i && ps[k].1.binding == b
    decreases |ps|
  {
    if ps != [] {
      var init := ps[..|ps| - 1];
      PositionsUnderMembership(init, b, i);
      assert forall k :: 0 <= k < |init| ==> init[k] == ps[k];
    }
  }

  /** The inputs of the pairs, each once, where it first occurs. */
  function DistinctInputs(ps: seq<(ValueRef, InputSpec)>): seq<InputSpec>
    decreases |ps|
  {
    if ps == [] then []
    else
      var kept := DistinctInputs(ps[..|ps| - 1]);
      var x := ps[|ps| - 1].1;
      if x in kept then kept else kept + [x]
  }

  /** An input is kept exactly when some pair carries it. */
  lemma {:induction false} DistinctInputsMembership(ps: seq<(ValueRef, InputSpec)>, x: InputSpec)
    ensures x in DistinctInputs(ps) <==> exists k :: 0 <= k < |ps| && ps[k].1 == x
    decreases |ps|
  {
    if ps != [] {
      var init := ps[..|ps| - 1];
      DistinctInputsMembership(init, x);
      assert forall k :: 0 <= k < |init| ==> init[k] == ps[k];
    }
  }

  /** No input is kept twice, and kept inputs appear in the order of their
      first occurrence: wherever a later one occurs, an earlier one has
      already occurred before. */
  lemma {:induction false} DistinctInputsOrder(ps: seq<(ValueRef, InputSpec)>)
    ensures Text.NoDuplicates(DistinctInputs(ps))
    ensures forall p, q, k :: 0 <= p < q < |DistinctInputs(ps)| && 0 <= k < |ps| && ps[k].1 == DistinctInputs(ps)[q] ==>
              exists k' :: 0 <= k' < k && ps[k'].1 == DistinctInputs(ps)[p]
    decreases |ps|
  {
    if ps != [] {
      var n := |ps| - 1;
      var init := ps[..n];
      var kept := DistinctInputs(init);
      var x := ps[n].1;
      var r := DistinctInputs(ps);
      DistinctInputsOrder(init);
      assert forall k :: 0 <= k < n ==> init[k] == ps[k];
      DistinctInputsMembership(init, x);
      forall p, q, k | 0 <= p < q < |r| && 0 <= k < |ps| && ps[k].1 == r[q]
        ensures exists k' :: 0 <= k' < k && ps[k'].1 == r[p]
      {
        if q < |kept| {
          if k == n {
            DistinctInputsMembership(init, r[q]);
            var k0 :| 0 <= k0 < n && init[k0].1 == r[q];
            var k' :| 0 <= k' < k0 && init[k'].1 == r[p];
            assert ps[k'].1 == r[p];
          } else {
            var k' :| 0 <= k' < k && init[k'].1 == r[p];
            assert ps[k'].1 == r[p];
          }
        } else {
          assert r[q] == x && x !in kept;
          assert k == n;
          DistinctInputsMembership(init, r[p]);
          var k' :| 0 <= k' < n && init[k'].1 == r[p];
          assert ps[k'].1 == r[p];
        }
      }
    }
  }

  /** Under each binding, the positions that declared it, in visiting
      order; and no other keys. */
  ghost predicate MapGathered(ps: seq<(ValueRef, InputSpec)>, updateMap: map<string, seq<ValueRef>>) {
    && (forall b :: b in updateMap <==> PositionsUnder(ps, b) != [])
    && (forall b :: b in updateMap ==> updateMap[b] == PositionsUnder(ps, b))
  }

  /** What `gather_inputs` leaves behind after visiting the pairs `ps`. */
  ghost predicate GatheredFrom(ps: seq<(ValueRef, InputSpec)>, updateMap: map<string, seq<ValueRef>>, inputs: seq<InputSpec>) {
    MapGathered(ps, updateMap) && inputs == DistinctInputs(ps)
  }

  /** Appending the position under the input's binding keeps `MapGathered`. */
  lemma MapStep(ps: seq<(ValueRef, InputSpec)>, updateMap: map<string, seq<ValueRef>>, pos: ValueRef, input: InputSpec)
    requires MapGathered(ps, updateMap)
    ensures var listed := if input.binding in updateMap then updateMap[input.binding] else [];
            MapGathered(ps + [(pos, input)], updateMap[input.binding := listed + [pos]])
  {
    var ps' := ps + [(pos, input)];
    assert ps'[..|ps'| - 1] == ps;
    assert forall b :: PositionsUnder(ps', b) == PositionsUnder(ps, b) + (if input.binding == b then [pos] else []);
  }

  /** One visit of the inner loop of `gather_inputs`: the position is
      appended under the input's binding, and the input is kept unless it
      is already there. */
  function Visit(updateMap: map<string, seq<ValueRef>>, inputs: seq<InputSpec>, pos: ValueRef, input: InputSpec)
    : (map<string, seq<ValueRef>>, seq<InputSpec>)
  {
    var listed := if input.binding in updateMap then updateMap[input.binding] else [];
    (updateMap[input.binding := listed + [pos]], if input in inputs then inputs else inputs + [input])
  }

  /** A visit keeps `GatheredFrom`. */
  lemma GatherStep(ps: seq<(ValueRef, InputSpec)>, updateMap: map<string, seq<ValueRef>>, inputs: seq<InputSpec>,
                   pos: ValueRef, input: InputSpec)
    requires GatheredFrom(ps, updateMap, inputs)
    ensures var next := Visit(updateMap, inputs, pos, input);
            GatheredFrom(ps + [(pos, input)], next.0, next.1)
  {
    MapStep(ps, updateMap, pos, input);
    assert (ps + [(pos, input)])[..|ps|] == ps;
  }

  /** Visiting one more input of a value extends its segment by one pair. */
  lemma SegmentStep(ps: seq<(ValueRef, InputSpec)>, pos: ValueRef, ins: seq<InputSpec>, k: nat)
    requires k < |ins|
    ensures ps + Segment(pos, ins[..k + 1]) == ps + Segment(pos, ins[..k]) + [(pos, ins[k])]
  {
    assert ins[..k + 1][..k] == ins[..k];
  }

  /** The inner loop of `gather_inputs`, over the inputs `ins` of the value
      at position `pos`. */
  method GatherValueInputs(ghost ps: seq<(ValueRef, InputSpec)>, updateMap: map<string, seq<ValueRef>>,
                           inputs: seq<InputSpec>, pos: ValueRef, ins: seq<InputSpec>)
    returns (updateMap': map<string, seq<ValueRef>>, inputs': seq<InputSpec>)
    requires GatheredFrom(ps, updateMap, inputs)
    ensures GatheredFrom(ps + Segment(pos, ins), updateMap', inputs')
  {
    updateMap', inputs' := updateMap, inputs;
    var k := 0;
    assert ps + Segment(pos, ins[..0]) == ps;
    while k < |ins|
      invariant 0 <= k <= |ins|
      invariant GatheredFrom(ps + Segment(pos, ins[..k]), updateMap', inputs')
    {
      GatherStep(ps + Segment(pos, ins[..k]), updateMap', inputs', pos, ins[k]);
      SegmentStep(ps, pos, ins, k);
      var next := Visit(updateMap', inputs', pos, ins[k]);
      updateMap', inputs' := next.0, next.1;
      k := k + 1;
    }
    assert ins[..k] == ins;
  }

  /** `gather_inputs`: every input of every value, in order; the value's
      position is appended under the input's binding, and the input is kept
      if it is not already there. */
  method GatherInputs(values: seq<Value>) returns (updateMap: map<string, seq<ValueRef>>, inputs: seq<InputSpec>)
    ensures GatheredFrom(Pairs(values), updateMap, inputs)
  {
    updateMap := map[];
    inputs := [];
    var i := 0;
    while i < |values|
      invariant 0 <= i <= |values|
      invariant GatheredFrom(Pairs(values[..i]), updateMap, inputs)
    {
      updateMap, inputs := GatherValueInputs(Pairs(values[..i]), updateMap, inputs, i, Inputs(values[i]));
      assert values[..i + 1][..i] == values[..i];
      i := i + 1;
    }
    assert values[..i] == values;
  }

  /** In terms of values: position `i` is listed under binding `b` exactly
      when the value there is a check value fetched by `b`. */
  lemma ListedMeaning(values: seq<Value>, updateMap: map<string, seq<ValueRef>>, b: string, i: ValueRef)
    requires MapGathered(Pairs(values), updateMap)
    ensures (b in updateMap && i in updateMap[b]) <==>
              i < |values| && values[i].CheckValue? && b == CheckBinding(Name(values[i]))
  {
    ListedPositions(values, b, i);
  }

  lemma ListedPositions(values: seq<Value>, b: string, i: ValueRef)
    ensures i in PositionsUnder(Pairs(values), b) <==>
              i < |values| && values[i].CheckValue? && b == CheckBinding(Name(values[i]))
  {
    var ps := Pairs(values);
    PositionsUnderMembership(ps, b, i);
    if i in PositionsUnder(ps, b) {
      var k :| 0 <= k < |ps| && ps[k].0 == i && ps[k].1.binding == b;
      PairsMembership(values, ps[k]);
    }
    if i < |values| && values[i].CheckValue? && b == CheckBinding(Name(values[i])) {
      var p := (i, Inputs(values[i])[0]);
      PairsMembership(values, p);
      var k :| 0 <= k < |ps| && ps[k] == p;
    }
  }

  /** Every check value's input is among the gathered inputs. */
  lemma CheckInputGathered(values: seq<Value>, inputs: seq<InputSpec>, i: nat)
    requires inputs == DistinctInputs(Pairs(values))
    requires i < |values| && values[i].CheckValue?
    ensures Inputs(values[i])[0] in inputs
  {
    var ps := Pairs(values);
    var p := (i, Inputs(values[i])[0]);
    PairsMembership(values, p);
    var k :| 0 <= k < |ps| && ps[k] == p;
    DistinctInputsMembership(ps, p.1);
  }

  /** The state every constructed alarm is in: a root is set, and the update
      map and inputs are those `gather_inputs` computed from the values. */
  ghost predicate Valid(a: Alarm) {
    a.expression.Some? && GatheredFrom(Pairs(a.values), a.updateMap, a.inputs)
  }

  /** `Alarm(alarmName, configurationSource)`: names, output, then the
      condition is parsed (`calls` and `status` are what the parser did with
      the configured condition string) and the inputs are gathered. */
  method NewAlarm(alarmName: string, calls: seq<ParserCall>, status: int) returns (r: Result<Alarm>)
    ensures r.Ok? <==> alarmName != [] && FirstRaised(calls) < 0 && status == 0 && SetsRoot(calls)
    ensures alarmName == [] ==> r == Err(EmptyAlarmNameError)
    ensures alarmName != [] && FirstRaised(calls) >= 0 ==> r == Err(calls[FirstRaised(calls)].error)
    ensures alarmName != [] && FirstRaised(calls) < 0 && status != 0 ==> r == Err(ParserTerminatedError)
    ensures alarmName != [] && FirstRaised(calls) < 0 && status == 0 && !SetsRoot(calls) ==> r == Err(EmptyAfterParsingError)
    ensures r.Ok? ==> Valid(r.value)
    ensures r.Ok? ==> r.value.name == alarmName && r.value.deviceName == AlarmIdString + alarmName
    ensures r.Ok? ==> r.value.values == Registered(calls)
    ensures r.Ok? ==> r.value.expression == LastRoot(calls)
    ensures r.Ok? ==> r.value.outputSpec == OutputSpec(AlarmOutputBinding, QcOrigin, Literal(TruncatedDescription(alarmName)))
  {
    var description := CreateAlarmDataDescription(alarmName);
    if description.Err? {
      return Err(description.error);
    }
    var a := Alarm(alarmName, AlarmIdString + alarmName, OutputSpec(AlarmOutputBinding, QcOrigin, description.value),
                   None, [], map[], []);
    var parsed := ParseString(a, calls, status);
    if parsed.Err? {
      return Err(parsed.error);
    }
    var updateMap, inputs := GatherInputs(parsed.value.values);
    r := Ok(parsed.value.(updateMap := updateMap, inputs := inputs));
  }

  // ---------------------------------------------------------------------------
  // run

  /** Every listed position of `vals` takes `data`; the others are kept. */
  method UpdateListed(vals: seq<Value>, listed: seq<ValueRef>, data: QualityObject) returns (out: seq<Value>)
    requires forall j :: 0 <= j < |listed| ==> listed[j] < |vals|
    ensures |out| == |vals|
    ensures forall i :: 0 <= i < |vals| ==> out[i] == if i in listed then Update(vals[i], data) else vals[i]
  {
    out := vals;
    var j := 0;
    while j < |listed|
      invariant 0 <= j <= |listed|
      invariant |out| == |vals|
      invariant forall i :: 0 <= i < |vals| ==> out[i] == if i in listed[..j] then Update(vals[i], data) else vals[i]
    {
      var pos := listed[j];
      UpdateOverwrites(vals[pos], data, data);
      out := out[pos := Update(out[pos], data)];
      assert listed[..j + 1] == listed[..j] + [pos];
      j := j + 1;
    }
    assert listed[..j] == listed;
  }

  /** The routing facts `run` relies on, in terms of values: every listed
      position holds a check value fetched by that binding, and every check
      value's input is gathered with its position listed under it. */
  ghost predicate Routed(a: Alarm) {
    && (forall b, j :: b in a.updateMap && 0 <= j < |a.updateMap[b]| ==>
          var i := a.updateMap[b][j];
          i < |a.values| && a.values[i].CheckValue? && b == CheckBinding(Name(a.values[i])))
    && (forall i :: 0 <= i < |a.values| && a.values[i].CheckValue? ==>
          && Inputs(a.values[i])[0] in a.inputs
          && CheckBinding(Name(a.values[i])) in a.updateMap
          && i in a.updateMap[CheckBinding(Name(a.values[i]))])
  }

  lemma ValidRouted(a: Alarm)
    requires Valid(a)
    ensures Routed(a)
  {
    forall b, j | b in a.updateMap && 0 <= j < |a.updateMap[b]|
      ensures var i := a.updateMap[b][j];
              i < |a.values| && a.values[i].CheckValue? && b == CheckBinding(Name(a.values[i]))
    {
      ListedMeaning(a.values, a.updateMap, b, a.updateMap[b][j]);
    }
    forall i | 0 <= i < |a.values| && a.values[i].CheckValue?
      ensures Inputs(a.values[i])[0] in a.inputs
      ensures CheckBinding(Name(a.values[i])) in a.updateMap && i in a.updateMap[CheckBinding(Name(a.values[i]))]
    {
      CheckInputGathered(a.values, a.inputs, i);
      ListedMeaning(a.values, a.updateMap, CheckBinding(Name(a.values[i])), i);
    }
  }

  /** Whether some input with data this cycle lists position `i` under its
      binding, among the first `upTo` inputs. */
  ghost predicate CarriedBy(a: Alarm, fetch: string -> Option<QualityObject>, i: ValueRef, upTo: nat)
    requires upTo <= |a.inputs|
  {
    exists k :: 0 <= k < upTo && Carries(a, fetch, k, i)
  }

  /** Input `k` has data this cycle and lists position `i` under its binding. */
  ghost predicate Carries(a: Alarm, fetch: string -> Option<QualityObject>, k: nat, i: ValueRef)
    requires k < |a.inputs|
  {
    var b := a.inputs[k].binding;
    b in a.updateMap && i in a.updateMap[b] && fetch(b).Some?
  }

  lemma CarriedByStep(a: Alarm, fetch: string -> Option<QualityObject>, i: ValueRef, k: nat)
    requires k < |a.inputs|
    ensures CarriedBy(a, fetch, i, k + 1) <==> CarriedBy(a, fetch, i, k) || Carries(a, fetch, k, i)
  {
    if CarriedBy(a, fetch, i, k + 1) && !Carries(a, fetch, k, i) {
      var k' :| 0 <= k' < k + 1 && Carries(a, fetch, k', i);
      assert k' < k;
    }
  }

  /** A value after receiving whatever its own binding carries. */
  function Refreshed(v: Value, fetch: string -> Option<QualityObject>): Value {
    match fetch(CheckBinding(Name(v)))
    case Some(data) => Update(v, data)
    case None => v
  }

  /** The input loop of `run`. */
  method Deliver(a: Alarm, fetch: string -> Option<QualityObject>) returns (vals: seq<Value>, update: bool)
    requires Routed(a)
    ensures |vals| == |a.values|
    ensures forall i :: 0 <= i < |a.values| ==>
              vals[i] == if CarriedBy(a, fetch, i, |a.inputs|) then Refreshed(a.values[i], fetch) else a.values[i]
    ensures update <==> exists k :: 0 <= k < |a.inputs| && fetch(a.inputs[k].binding).Some?
  {
    vals := a.values;
    update := false;
    var k := 0;
    while k < |a.inputs|
      invariant 0 <= k <= |a.inputs|
      invariant |vals| == |a.values|
      invariant forall i :: 0 <= i < |a.values| ==>
                  vals[i] == if CarriedBy(a, fetch, i, k) then Refreshed(a.values[i], fetch) else a.values[i]
      invariant update <==> exists k' :: 0 <= k' < k && fetch(a.inputs[k'].binding).Some?
    {
      var binding := a.inputs[k].binding;
      var data := fetch(binding);
      var listed := if binding in a.updateMap then a.updateMap[binding] else [];
      forall j | 0 <= j < |listed|
        ensures listed[j] < |vals|
      {
        assert binding in a.updateMap && listed[j] == a.updateMap[binding][j];
      }
      if data.Some? {
        update := true;
        vals := UpdateListed(vals, listed, data.value);
      }
      forall i | 0 <= i < |a.values|
        ensures vals[i] == if CarriedBy(a, fetch, i, k + 1) then Refreshed(a.values[i], fetch) else a.values[i]
      {
        CarriedByStep(a, fetch, i, k);
        if data.Some? && i in listed {
          UpdateOverwrites(a.values[i], data.value, data.value);
        }
      }
      k := k + 1;
    }
  }

  /** `run`: for each input whose data reference has both header and payload
      (`fetch` gives `Some`), every value listed under its binding is
      updated; the expression is evaluated if and only if at least one input
      carried data. Logging the outcome is left out. */
  method Run(scale: LevelScale, a: Alarm, fetch: string -> Option<QualityObject>)
    returns (r: Alarm, outcome: Option<Result<AlarmReturn>>)
    requires Valid(a)
    ensures Valid(r)
    ensures r == a.(values := r.values) && |r.values| == |a.values|
    ensures forall i :: 0 <= i < |a.values| ==>
              r.values[i] == if CarriedBy(a, fetch, i, |a.inputs|) then Refreshed(a.values[i], fetch) else a.values[i]
    ensures forall i :: 0 <= i < |a.values| ==>
              (CarriedBy(a, fetch, i, |a.inputs|) <==>
                 a.values[i].CheckValue? && fetch(CheckBinding(Name(a.values[i]))).Some?)
    ensures outcome.Some? <==> exists k :: 0 <= k < |a.inputs| && fetch(a.inputs[k].binding).Some?
    ensures outcome.Some? ==> outcome.value == Eval(scale, a.expression.value, r.values)
  {
    ValidRouted(a);
    CarriedMeaning(a, fetch);
    var vals, update := Deliver(a, fetch);
    r := a.(values := vals);
    forall i | 0 <= i < |vals|
      ensures Inputs(vals[i]) == Inputs(a.values[i])
    {
      var data := fetch(CheckBinding(Name(a.values[i])));
      if data.Some? {
        assert Inputs(Update(a.values[i], data.value)) == Inputs(a.values[i]);
      }
    }
    PairsUnderUpdate(a.values, vals);
    if update {
      outcome := Some(Eval(scale, a.expression.value, vals));
    } else {
      outcome := None;
    }
  }

  /** Under the routing facts, a value receives data exactly when it is a
      check value and its own binding carries some. */
  lemma CarriedMeaning(a: Alarm, fetch: string -> Option<QualityObject>)
    requires Routed(a)
    ensures forall i :: 0 <= i < |a.values| ==>
              (CarriedBy(a, fetch, i, |a.inputs|) <==>
                 a.values[i].CheckValue? && fetch(CheckBinding(Name(a.values[i]))).Some?)
  {
    forall i | 0 <= i < |a.values|
      ensures CarriedBy(a, fetch, i, |a.inputs|) <==>
                a.values[i].CheckValue? && fetch(CheckBinding(Name(a.values[i]))).Some?
    {
      if a.values[i].CheckValue? && fetch(CheckBinding(Name(a.values[i]))).Some? {
        var x := Inputs(a.values[i])[0];
        var k :| 0 <= k < |a.inputs| && a.inputs[k] == x;
        assert Carries(a, fetch, k, i);
      }
    }
  }
}
