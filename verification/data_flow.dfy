/** The data flow: the data recorded for each step of a flow, by step name. */
module DataFlow {
  import opened Outcomes
  import opened OrderedMaps
  import opened Values

  datatype Flow = Flow(steps: map<string, OrderedMap<Value>>)

  /** A new flow records no step. */
  const Fresh: Flow := Flow(map[])

  /** `hasStep`: step data is an array, never `null`, so `isset` is key presence. */
  predicate HasStep(f: Flow, name: string)
  {
    name in f.steps
  }

  /** `getStep`: the recorded data, or a LogicException naming the step. */
  function GetStep(f: Flow, name: string): (r: Result<OrderedMap<Value>>)
    ensures r.Ok? <==> HasStep(f, name)
    ensures r.Err? ==> r.error == StepNotFound(name)
  {
    if !HasStep(f, name) then Err(StepNotFound(name)) else Ok(f.steps[name])
  }

  /** `setStep`: records (or overwrites) the data of one step. */
  function SetStep(f: Flow, name: string, data: OrderedMap<Value>): (r: Flow)
    ensures HasStep(r, name)
    ensures forall n :: n != name ==> HasStep(r, n) == HasStep(f, n)
  {
    Flow(f.steps[name := data])
  }

  /** After `setStep(n, d)`, `getStep(n)` returns `d`, and every other step
      reads as before. */
  lemma SetThenGet(f: Flow, name: string, data: OrderedMap<Value>)
    ensures GetStep(SetStep(f, name, data), name) == Ok(data)
    ensures forall n :: n != name ==> GetStep(SetStep(f, name, data), n) == GetStep(f, n)
  {
  }

  /** Setting a step twice keeps only the second data. */
  lemma SetStepOverwrites(f: Flow, name: string, d1: OrderedMap<Value>, d2: OrderedMap<Value>)
    ensures SetStep(SetStep(f, name, d1), name, d2) == SetStep(f, name, d2)
  {
  }

  /** A new flow has no step, so every `getStep` fails. */
  lemma FreshFlowIsEmpty(name: string)
    ensures !HasStep(Fresh, name)
    ensures GetStep(Fresh, name) == Err(StepNotFound(name))
  {
  }

  /** The exception message names the step. */
  lemma MissingStepMessageNamesStep(f: Flow, name: string)
    requires !HasStep(f, name)
    ensures Mentions(GetStep(f, name).error.Message(), name)
  {
    var msg := GetStep(f, name).error.Message();
    assert msg == "No step \"" + name + "\" found.";
    assert name <= msg[9..];
  }
}
