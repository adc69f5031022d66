/** The configuration worker registry: workers by alias. */
module WorkerRegistry {
  import opened Outcomes

  datatype Registry<W> = Registry(workers: map<string, W>)

  /** A new registry holds no worker. */
  function Empty<W>(): (r: Registry<W>)
    ensures r.workers == map[]
  {
    Registry(map[])
  }

  /** `setWorker`: registers (or replaces) the worker of one alias. */
  function SetWorker<W>(r: Registry<W>, alias: string, worker: W): (r': Registry<W>)
    ensures alias in r'.workers
    ensures r'.workers.Keys == r.workers.Keys + {alias}
  {
    Registry(r.workers[alias := worker])
  }

  /** `getWorker`: the registered worker, or an InvalidArgumentException
      naming the alias. Workers are objects, never `null`, so `isset` is key
      presence. */
  function GetWorker<W>(r: Registry<W>, alias: string): (res: Result<W>)
    ensures res.Ok? <==> alias in r.workers
    ensures res.Err? ==> res.error == WorkerNotFound(alias)
  {
    if alias !in r.workers then Err(WorkerNotFound(alias)) else Ok(r.workers[alias])
  }

  /** After `setWorker(a, w)`, `getWorker(a)` returns `w`; other aliases
      resolve as before. */
  lemma SetThenGet<W>(r: Registry<W>, alias: string, worker: W)
    ensures GetWorker(SetWorker(r, alias, worker), alias) == Ok(worker)
    ensures forall a :: a != alias ==> GetWorker(SetWorker(r, alias, worker), a) == GetWorker(r, a)
  {
  }

  /** Registering an alias again replaces its worker. */
  lemma SetWorkerReplaces<W>(r: Registry<W>, alias: string, w1: W, w2: W)
    ensures SetWorker(SetWorker(r, alias, w1), alias, w2) == SetWorker(r, alias, w2)
  {
  }

  /** On a new registry every lookup fails. */
  lemma EmptyRegistryFails<W>(alias: string)
    ensures GetWorker(Empty<W>(), alias) == Err(WorkerNotFound(alias))
  {
  }

  /** The exception message names the alias. */
  lemma MissingWorkerMessageNamesAlias<W>(r: Registry<W>, alias: string)
    requires alias !in r.workers
    ensures Mentions(GetWorker(r, alias).error.Message(), alias)
  {
    var msg := GetWorker(r, alias).error.Message();
    assert msg == "Could not load worker \"" + alias + "\"";
    assert alias <= msg[23..];
  }
}
