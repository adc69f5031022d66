/** The template merge engine: a recursive walk over an option tree that
    renders every string through the template engine, leaves `|raw`-suffixed
    keys and `events` keys unresolved, and passes other scalars through. */
module TemplateMerge {
  import opened Outcomes
  import opened OrderedMaps
  import opened Values

  /** The variables a template is rendered against. */
  type Bindings = map<string, Value>

  /** The template engine: the rendering of a template against bindings, or
      `None` when rendering raises. */
  type Renderer = (string, Bindings) -> Option<string>

  const RawSuffix: string := "|raw"
  const EventsKey: string := "events"
  const SessionKey: string := "session"
  const UserKey: string := "user"

  /** `substr($k, -4) == '|raw'`. */
  predicate IsRawKey(k: string)
  {
    |k| >= |RawSuffix| && k[|k| - |RawSuffix|..] == RawSuffix
  }

  /** `substr($k, 0, -4)`: the key a raw value is stored under. */
  function StripRaw(k: string): (r: string)
    requires IsRawKey(k)
    ensures r + RawSuffix == k
  {
    k[..|k| - |RawSuffix|]
  }

  /** Merges one value. `try` says whether a render failure is swallowed
      (the string is kept) or rethrown. Arrays pass `try` down; object
      properties are always merged with `try` set. */
  function MergeValue(v: Value, vars: Bindings, render: Renderer, try: bool): (r: Result<Value>)
    decreases v, 1, 0
    ensures v.IsPlainScalar() ==> r == Ok(v)
    ensures try || v.Obj? ==> r.Ok?
    ensures v.Str? ==> r == (match render(v.s, vars)
                             case Some(out) => Ok(Str(out))
                             case None => if try then Ok(v) else Err(RenderFailed(v.s)))
    ensures r.Ok? && v.Arr? ==> r.value.Arr?
    ensures r.Ok? && v.Obj? ==> r.value.Obj? && r.value.cls == v.cls && KeyOrder(r.value.props) == KeyOrder(v.props)
  {
    match v
    case Str(s) =>
      (match render(s, vars)
       case Some(out) => Ok(Str(out))
       case None => if try then Ok(v) else Err(RenderFailed(s)))
    case Arr(es) =>
      var merged :- MergeArrayFrom(v, 0, es, vars, render, try);
      Ok(Arr(merged))
    case Obj(cls, props) =>
      Ok(Obj(cls, MergePropsFrom(v, 0, vars, render)))
    case _ => Ok(v)
  }

  /** The array branch, from the `i`-th entry of the original array on, with
      `acc` the array as the loop has left it so far. The loop walks the
      original entries, so a key it stores or strips is never revisited. */
  function MergeArrayFrom(parent: Value, i: nat, acc: OrderedMap<Value>, vars: Bindings, render: Renderer, try: bool)
    : (r: Result<OrderedMap<Value>>)
    requires parent.Arr? && i <= |parent.entries|
    decreases parent, 0, |parent.entries| - i
    ensures try ==> r.Ok?
  {
    if i == |parent.entries| then Ok(acc)
    else
      var next :- MergeEntry(parent.entries[i].0, parent.entries[i].1, acc, vars, render, try);
      MergeArrayFrom(parent, i + 1, next, vars, render, try)
  }

  /** One pass of the array branch's loop, over original entry `k => v`: a
      raw key is stored unrendered under its stripped key and unset, the
      `events` key is left alone, any other key gets its merged value. */
  function MergeEntry(k: string, v: Value, acc: OrderedMap<Value>, vars: Bindings, render: Renderer, try: bool)
    : (r: Result<OrderedMap<Value>>)
    decreases v, 2
    ensures try ==> r.Ok?
  {
    if IsRawKey(k) then Ok(Remove(Put(acc, StripRaw(k), v), k))
    else if k == EventsKey then Ok(acc)
    else
      var merged :- MergeValue(v, vars, render, try);
      Ok(Put(acc, k, merged))
  }

  /** The object branch, from the `i`-th property on: every property is
      merged with failures swallowed. */
  function MergePropsFrom(parent: Value, i: nat, vars: Bindings, render: Renderer): (r: OrderedMap<Value>)
    requires parent.Obj? && i <= |parent.props|
    decreases parent, 0, |parent.props| - i
    ensures KeyOrder(r) == KeyOrder(parent.props[i..])
  {
    if i == |parent.props| then []
    else
      var (name, v) := parent.props[i];
      var merged := MergeValue(v, vars, render, true);
      [(name, merged.value)] + MergePropsFrom(parent, i + 1, vars, render)
  }

  /** The per-request values `merge` binds. */
  datatype RequestContext = RequestContext(
    /** Everything in the session. */
    session: Value,
    /** The user of the security token, `None` when there is no token. */
    tokenUser: Option<Value>,
    /** The data of the flow the flow recorder returns, `None` when it returns none. */
    flowData: Option<Value>)

  /** The variables `merge` renders against: the caller's, with `session`
      and `user` always (re)bound. */
  function Bind(vars: Bindings, ctx: RequestContext): (b: Bindings)
    ensures b.Keys == vars.Keys + {SessionKey, UserKey}
    ensures b[SessionKey] == ctx.session
    ensures b[UserKey] == (match ctx.tokenUser case Some(u) => u case None => Null)
    ensures forall k :: k in vars && k != SessionKey && k != UserKey ==> b[k] == vars[k]
  {
    var user := match ctx.tokenUser case Some(u) => u case None => Null;
    vars[SessionKey := ctx.session][UserKey := user]
  }

  /** `merge`: a strict merge of a whole option array. */
  function Merge(options: OrderedMap<Value>, vars: Bindings, ctx: RequestContext, render: Renderer)
    : Result<OrderedMap<Value>>
  {
    var merged :- MergeValue(Arr(options), Bind(vars, ctx), render, false);
    Ok(merged.entries)
  }
}
