/** The part of the options resolver the modelled code relies on: a schema of
    required keys, defaults, allowed values and allowed types, and the
    resolution of a supplied option array against it. Checks run in the
    resolver's order: undefined keys, then missing required keys, then allowed
    values, then allowed types. The first check that fails decides the
    error, and within the value and type checks the first broken rule names
    the option reported. */
module OptionsResolver {
  import opened Outcomes
  import opened Values

  datatype Schema = Schema(
    required: set<string>,
    defaults: map<string, Value>,
    allowedValues: seq<(string, seq<Value>)>,
    allowedTypes: seq<(string, set<TypeName>)>)
  {
    /** Every key the schema defines. */
    function Known(): set<string>
    {
      required + defaults.Keys
    }
  }

  /** The value of `key` is acceptable under one allowed-values rule. */
  predicate ValueAllowed(opts: map<string, Value>, rule: (string, seq<Value>))
  {
    rule.0 in opts ==> opts[rule.0] in rule.1
  }

  /** The value of `key` is acceptable under one allowed-types rule. */
  predicate TypeAllowed(opts: map<string, Value>, rule: (string, set<TypeName>))
  {
    rule.0 in opts ==> exists t :: t in rule.1 && HasType(opts[rule.0], t)
  }

  /** Rule `i` is the first allowed-values rule `opts` breaks. */
  predicate IsFirstBadValue(rules: seq<(string, seq<Value>)>, opts: map<string, Value>, i: int)
  {
    0 <= i < |rules| && !ValueAllowed(opts, rules[i]) && forall j :: 0 <= j < i ==> ValueAllowed(opts, rules[j])
  }

  /** Rule `i` is the first allowed-types rule `opts` breaks. */
  predicate IsFirstBadType(rules: seq<(string, set<TypeName>)>, opts: map<string, Value>, i: int)
  {
    0 <= i < |rules| && !TypeAllowed(opts, rules[i]) && forall j :: 0 <= j < i ==> TypeAllowed(opts, rules[j])
  }

  /** The first allowed-values rule `opts` breaks, if any. */
  function FirstBadValue(rules: seq<(string, seq<Value>)>, opts: map<string, Value>): (r: Option<string>)
    ensures r.None? <==> forall i :: 0 <= i < |rules| ==> ValueAllowed(opts, rules[i])
    ensures r.Some? ==> exists i :: IsFirstBadValue(rules, opts, i) && rules[i].0 == r.value
  {
    if rules == [] then None
    else if !ValueAllowed(opts, rules[0]) then
      assert IsFirstBadValue(rules, opts, 0);
      Some(rules[0].0)
    else
      var r := FirstBadValue(rules[1..], opts);
      assert forall i :: 1 <= i < |rules| ==> rules[i] == rules[1..][i - 1];
      assert r.Some? ==> exists i :: IsFirstBadValue(rules, opts, i) && rules[i].0 == r.value by {
        if r.Some? {
          var i :| IsFirstBadValue(rules[1..], opts, i) && rules[1..][i].0 == r.value;
          assert IsFirstBadValue(rules, opts, i + 1);
        }
      }
      r
  }

  /** The first allowed-types rule `opts` breaks, if any. */
  function FirstBadType(rules: seq<(string, set<TypeName>)>, opts: map<string, Value>): (r: Option<string>)
    ensures r.None? <==> forall i :: 0 <= i < |rules| ==> TypeAllowed(opts, rules[i])
    ensures r.Some? ==> exists i :: IsFirstBadType(rules, opts, i) && rules[i].0 == r.value
  {
    if rules == [] then None
    else if !TypeAllowed(opts, rules[0]) then
      assert IsFirstBadType(rules, opts, 0);
      Some(rules[0].0)
    else
      var r := FirstBadType(rules[1..], opts);
      assert forall i :: 1 <= i < |rules| ==> rules[i] == rules[1..][i - 1];
      assert r.Some? ==> exists i :: IsFirstBadType(rules, opts, i) && rules[i].0 == r.value by {
        if r.Some? {
          var i :| IsFirstBadType(rules[1..], opts, i) && rules[1..][i].0 == r.value;
          assert IsFirstBadType(rules, opts, i + 1);
        }
      }
      r
  }

  /** Resolves the supplied options against the schema. */
  function Resolve(s: Schema, input: map<string, Value>): (r: Result<map<string, Value>>)
    ensures !(input.Keys <= s.Known()) ==> r == Err(UndefinedOptions(input.Keys - s.Known()))
    ensures input.Keys <= s.Known() && !(s.required <= input.Keys + s.defaults.Keys) ==>
              r == Err(MissingOptions(s.required - input.Keys - s.defaults.Keys))
    ensures r.Ok? <==>
              && input.Keys <= s.Known()
              && s.required <= input.Keys + s.defaults.Keys
              && (forall i :: 0 <= i < |s.allowedValues| ==> ValueAllowed(s.defaults + input, s.allowedValues[i]))
              && (forall i :: 0 <= i < |s.allowedTypes| ==> TypeAllowed(s.defaults + input, s.allowedTypes[i]))
    ensures r.Err? && r.error.InvalidOptionValue? ==>
              exists i :: IsFirstBadValue(s.allowedValues, s.defaults + input, i) && s.allowedValues[i].0 == r.error.name
    ensures r.Err? && r.error.InvalidOptionType? ==>
              && (forall i :: 0 <= i < |s.allowedValues| ==> ValueAllowed(s.defaults + input, s.allowedValues[i]))
              && exists i :: IsFirstBadType(s.allowedTypes, s.defaults + input, i) && s.allowedTypes[i].0 == r.error.name
    ensures r.Err? && input.Keys <= s.Known() && s.required <= input.Keys + s.defaults.Keys ==>
              r.error.InvalidOptionValue? || r.error.InvalidOptionType?
    ensures r.Ok? ==> r.value.Keys == input.Keys + s.defaults.Keys
    ensures r.Ok? ==> forall k :: k in input ==> r.value[k] == input[k]
    ensures r.Ok? ==> forall k :: k in s.defaults && k !in input ==> r.value[k] == s.defaults[k]
  {
    if !(input.Keys <= s.Known()) then Err(UndefinedOptions(input.Keys - s.Known()))
    else if !(s.required <= input.Keys + s.defaults.Keys) then
      Err(MissingOptions(s.required - input.Keys - s.defaults.Keys))
    else
      var resolved := s.defaults + input;
      match FirstBadValue(s.allowedValues, resolved)
      case Some(k) => Err(InvalidOptionValue(k))
      case None =>
        match FirstBadType(s.allowedTypes, resolved)
        case Some(k) => Err(InvalidOptionType(k))
        case None => Ok(resolved)
  }
}
