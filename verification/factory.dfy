/** The dynamic synonym token-filter factory: configuration checks and
    defaults, the choice of rule source, the process-wide registry of scheduled
    monitors per index, the chain-aware filter creation, and the monitor tick
    that publishes a reloaded map to every filter. Threads are not modelled: a
    tick is one sequential step, and the scheduler is one explicit object. */
module Analysis {
  import opened Wrappers
  import opened Lucene
  import Ext

  // ------------------------------------------------------------ settings

  /** The filter's index settings; an absent key reads as NULL. */
  datatype Settings = Settings(
    synonymsPath: Option<string>,
    dbUrl: Option<string>,
    dbTable: Option<string>,
    dbUser: Option<string>,
    dbPass: Option<string>,
    dicType: Option<string>,
    dicStyle: Option<string>,
    interval: Option<int>,
    expand: Option<bool>,
    lenient: Option<bool>,
    format: Option<string>)

  /** What the factory keeps of its settings. */
  datatype Config = Config(
    location: Option<string>,
    url: Option<string>,
    dbTable: Option<string>,
    dbUser: Option<string>,
    dbPass: Option<string>,
    dicType: Option<string>,
    dicStyle: Option<string>,
    interval: int,
    expand: bool,
    lenient: bool,
    format: string)

  /** The factory constructor's checks: a rule source must be configured (a
      path or a database URL); `interval`, `expand`, `lenient` and `format`
      default to 60, true, false and the empty string. */
  function Configure(s: Settings): (r: Result<Config, Exception>)
    ensures r.Failure? <==> s.synonymsPath.None? && s.dbUrl.None?
    ensures r.Failure? ==> r.error.IllegalArgument?
    ensures r.Success? ==>
      && r.value.location == s.synonymsPath && r.value.url == s.dbUrl
      && r.value.dbTable == s.dbTable && r.value.dbUser == s.dbUser && r.value.dbPass == s.dbPass
      && r.value.dicType == s.dicType && r.value.dicStyle == s.dicStyle
    ensures r.Success? ==>
      && r.value.interval == (if s.interval.Some? then s.interval.value else 60)
      && r.value.expand == (s.expand.None? || s.expand.value)
      && r.value.lenient == (s.lenient.Some? && s.lenient.value)
      && r.value.format == (if s.format.Some? then s.format.value else "")
  {
    if s.synonymsPath.None? && s.dbUrl.None? then
      Failure(IllegalArgument("dynamic synonym requires `synonyms_path || db_url` to be configured"))
    else
      Success(Config(
        s.synonymsPath, s.dbUrl, s.dbTable, s.dbUser, s.dbPass, s.dicType, s.dicStyle,
        if s.interval.Some? then s.interval.value else 60,
        if s.expand.Some? then s.expand.value else true,
        if s.lenient.Some? then s.lenient.value else false,
        if s.format.Some? then s.format.value else ""))
  }

  // ------------------------------------------------------------ sources

  datatype SourceKind = DatabaseSource | RemoteSource | LocalSource

  /** No path: the database; an `http://` or `https://` path: a remote document;
      any other path: a local file. */
  function SelectSource(location: Option<string>): (k: SourceKind)
    ensures k == DatabaseSource <==> location.None?
    ensures k == RemoteSource <==> location.Some? && ("http://" <= location.value || "https://" <= location.value)
    ensures k == LocalSource <==> location.Some? && !("http://" <= location.value) && !("https://" <= location.value)
  {
    if location.None? then DatabaseSource
    else if "http://" <= location.value || "https://" <= location.value then RemoteSource
    else LocalSource
  }

  /** A rule source; the remote-document and local-file variants are identified
      by their location only. */
  datatype SynonymFile =
    | Database(db: Ext.SynonymDb)
    | Remote(location: string)
    | Local(location: string)
  {
    function Kind(): SourceKind
    {
      match this
      case Database(_) => DatabaseSource
      case Remote(_) => RemoteSource
      case Local(_) => LocalSource
    }
  }

  // ------------------------------------------------------------ filters

  /** The plugin's dynamic synonym filter over one token stream; `Update`
      swaps the map it applies. */
  class DynamicSynonymFilter {
    const input: TokenStream
    var synonyms: SynonymMap

    constructor(input: TokenStream, synonyms: SynonymMap)
      ensures this.input == input && this.synonyms == synonyms
    {
      this.input := input;
      this.synonyms := synonyms;
    }

    method Update(synonyms: SynonymMap)
      modifies this
      ensures this.synonyms == synonyms
    {
      this.synonyms := synonyms;
    }
  }

  /** What a filter factory hands back: the input itself or a new synonym filter over it. */
  datatype Stream = Unfiltered(source: TokenStream) | Filtered(filter: DynamicSynonymFilter)

  // ------------------------------------------------------------ registry

  /** A handle on a periodically scheduled monitor. */
  datatype ScheduledFuture = ScheduledFuture(id: nat, task: Monitor, initialDelay: int, period: int)

  /** Index name to the handles scheduled for it. */
  type Registry = map<string, seq<ScheduledFuture>>

  /** The registry update as DynamicSynonymTokenFilterFactory.java:199 writes it:
      the entry for the index becomes a one-element list, replacing what was there. */
  function RegisterAsWritten(reg: Registry, indexName: string, h: ScheduledFuture): (r: Registry)
    ensures r.Keys == reg.Keys + {indexName}
    ensures forall n :: n in reg && n != indexName ==> r[n] == reg[n]
    ensures HandlesOf(r, indexName) == {h}
  {
    reg[indexName := [h]]
  }

  /** Closing an index cancels the handles registered for it. */
  function HandlesOf(reg: Registry, indexName: string): set<ScheduledFuture>
  {
    if indexName in reg then set h | h in reg[indexName] else {}
  }

  /** Two factories of one index each schedule a monitor; after the second
      as-written registration, closing the index cannot reach the first one. */
  lemma RegisterAsWrittenOrphansEarlier(reg: Registry, indexName: string, h1: ScheduledFuture, h2: ScheduledFuture)
    requires h1 != h2
    ensures h1 !in HandlesOf(RegisterAsWritten(RegisterAsWritten(reg, indexName, h1), indexName, h2), indexName)
  {
  }

  /** The registry update the model uses: the handle is appended to the entry
      of its index, so every handle ever registered for an index stays reachable
      by closing that index, and no other entry changes. */
  function Register(reg: Registry, indexName: string, h: ScheduledFuture): (r: Registry)
    ensures r.Keys == reg.Keys + {indexName}
    ensures forall n :: n in reg && n != indexName ==> r[n] == reg[n]
    ensures HandlesOf(r, indexName) == HandlesOf(reg, indexName) + {h}
  {
    reg[indexName := (if indexName in reg then reg[indexName] else []) + [h]]
  }

  /** The process-wide state of the factory class: the pool that runs the
      monitors and the static registry of handles per index name. `issued`
      remembers, for every handle ever registered, the index it was registered
      for. */
  class Scheduler {
    var scheduledFutures: Registry
    var cancelled: set<ScheduledFuture>
    var nextId: nat
    ghost var issued: map<ScheduledFuture, string>

    /** Every registered handle is either cancelled or reachable from its index's entry. */
    ghost predicate Valid()
      reads this
    {
      && (forall h :: h in issued ==> h.id < nextId)
      && (forall h :: h in issued ==> h in cancelled || h in HandlesOf(scheduledFutures, issued[h]))
    }

    constructor()
      ensures Valid()
      ensures scheduledFutures == map[] && cancelled == {} && issued == map[]
    {
      scheduledFutures := map[];
      cancelled := {};
      nextId := 0;
      issued := map[];
    }

    /** The pool's `scheduleAtFixedRate`: a period of zero or less is rejected
        with an IllegalArgumentException and nothing is scheduled; otherwise a
        new handle for `task` is returned. The registry is not touched. */
    method ScheduleAtFixedRate(task: Monitor, initialDelay: int, period: int)
      returns (r: Result<ScheduledFuture, Exception>)
      requires Valid()
      modifies this`nextId
      ensures Valid()
      ensures period <= 0 ==> r.Failure? && r.error.IllegalArgument? && nextId == old(nextId)
      ensures period > 0 ==>
        && r.Success? && r.value !in issued
        && r.value.task == task && r.value.initialDelay == initialDelay && r.value.period == period
        && r.value.id < nextId
    {
      if period <= 0 {
        return Failure(IllegalArgument("period must be positive"));
      }
      var h := ScheduledFuture(nextId, task, initialDelay, period);
      nextId := nextId + 1;
      r := Success(h);
    }

    /** The registry update of a newly scheduled handle, in its corrected form:
        the handle is appended to its index's entry (see `RegisterAsWritten` for
        the replacing update DynamicSynonymTokenFilterFactory.java:199 performs). */
    method RegisterHandle(indexName: string, h: ScheduledFuture)
      requires Valid() && h.id < nextId && h !in issued
      modifies this`scheduledFutures, this`issued
      ensures Valid()
      ensures issued == old(issued)[h := indexName]
      ensures scheduledFutures == Register(old(scheduledFutures), indexName, h)
    {
      issued := issued[h := indexName];
      scheduledFutures := Register(scheduledFutures, indexName, h);
    }

    /** `closeIndDynamicSynonym`: removes the entry of the index and cancels
        every handle in it; every other entry is left as it was, and an unknown
        index changes nothing. */
    method CloseIndDynamicSynonym(indexName: string)
      requires Valid()
      modifies this
      ensures Valid()
      ensures scheduledFutures == old(scheduledFutures) - {indexName}
      ensures cancelled == old(cancelled) + HandlesOf(old(scheduledFutures), indexName)
      ensures nextId == old(nextId) && issued == old(issued)
      ensures forall h :: h in issued && issued[h] == indexName ==> h in cancelled
    {
      if indexName in scheduledFutures {
        var futures := scheduledFutures[indexName];
        scheduledFutures := scheduledFutures - {indexName};
        var i := 0;
        while i < |futures|
          invariant 0 <= i <= |futures|
          invariant cancelled == old(cancelled) + set j | 0 <= j < i :: futures[j]
          invariant scheduledFutures == old(scheduledFutures) - {indexName}
          invariant nextId == old(nextId) && issued == old(issued)
        {
          cancelled := cancelled + {futures[i]};
          i := i + 1;
        }
        assert (set j | 0 <= j < |futures| :: futures[j]) == set h | h in futures;
      }
    }
  }

  // ------------------------------------------------------------ factory

  /** The periodic task of one factory, bound to the source it polls. */
  class Monitor {
    const owner: DynamicSynonymTokenFilterFactory
    const file: SynonymFile

    constructor(owner: DynamicSynonymTokenFilterFactory, file: SynonymFile)
      ensures this.owner == owner && this.file == file
    {
      this.owner := owner;
      this.file := file;
    }

    /** One tick. `stale` is the source's freshness answer and `reloaded` what
        reloading it gives. Not stale: nothing changes. Stale: the reloaded map
        becomes the factory's map and every registered filter is updated to it;
        a failed reload throws and changes nothing. */
    method Run(stale: bool, reloaded: Result<SynonymMap, Exception>) returns (thrown: Option<Exception>)
      modifies owner`synonymMap, owner.dynamicSynonymFilters
      ensures !stale || reloaded.Failure? ==>
        && owner.synonymMap == old(owner.synonymMap)
        && forall f :: f in owner.dynamicSynonymFilters ==> f.synonyms == old(f.synonyms)
      ensures thrown == (if stale && reloaded.Failure? then Some(reloaded.error) else None)
      ensures stale && reloaded.Success? ==>
        && owner.synonymMap == Some(reloaded.value)
        && forall f :: f in owner.dynamicSynonymFilters ==> f.synonyms == reloaded.value
    {
      thrown := None;
      if stale {
        if reloaded.Failure? {
          thrown := Some(reloaded.error);
          return;
        }
        var m := reloaded.value;
        owner.synonymMap := Some(m);
        var pending := owner.dynamicSynonymFilters;
        while pending != {}
          invariant pending <= owner.dynamicSynonymFilters
          invariant owner.synonymMap == Some(m)
          invariant forall f :: f in owner.dynamicSynonymFilters && f !in pending ==> f.synonyms == m
          invariant forall f :: f in pending ==> f.synonyms == old(f.synonyms)
          decreases pending
        {
          var f :| f in pending;
          f.Update(m);
          pending := pending - {f};
        }
      }
    }
  }

  class DynamicSynonymTokenFilterFactory {
    /** The name of the index the factory belongs to. */
    const indexName: string
    /** The filter's own name. */
    const name: string
    const config: Config
    /** The process-wide pool and registry. */
    const scheduler: Scheduler
    var scheduledFuture: Option<ScheduledFuture>
    var synonymMap: Option<SynonymMap>
    var dynamicSynonymFilters: set<DynamicSynonymFilter>

    /** Construction from settings `Configure` accepts; `New` is the entry
        point that also covers the rejected ones. */
    constructor(indexName: string, name: string, settings: Settings, scheduler: Scheduler)
      requires Configure(settings).Success?
      ensures this.indexName == indexName && this.name == name
      ensures this.config == Configure(settings).value && this.scheduler == scheduler
      ensures scheduledFuture == None && synonymMap == None && dynamicSynonymFilters == {}
    {
      this.indexName := indexName;
      this.name := name;
      this.config := Configure(settings).value;
      this.scheduler := scheduler;
      scheduledFuture := None;
      synonymMap := None;
      dynamicSynonymFilters := {};
    }

    /** The source's constructor: settings without a rule source are rejected
        with an IllegalArgumentException; otherwise a new factory holding the
        configured values, with no monitor, no map and no filter. */
    static method New(indexName: string, name: string, settings: Settings, scheduler: Scheduler)
      returns (r: Result<DynamicSynonymTokenFilterFactory, Exception>)
      ensures r.Failure? <==> settings.synonymsPath.None? && settings.dbUrl.None?
      ensures r.Failure? ==> r.error.IllegalArgument?
      ensures r.Success? ==>
        && fresh(r.value)
        && r.value.indexName == indexName && r.value.name == name && r.value.scheduler == scheduler
        && r.value.config == Configure(settings).value
        && r.value.scheduledFuture == None && r.value.synonymMap == None && r.value.dynamicSynonymFilters == {}
    {
      var configured := Configure(settings);
      if configured.Failure? {
        return Failure(configured.error);
      }
      var factory := new DynamicSynonymTokenFilterFactory(indexName, name, settings, scheduler);
      r := Success(factory);
    }

    /** The unspecialized entry point always throws. */
    method Create(tokenStream: TokenStream) returns (r: Result<Stream, Exception>)
      ensures r.Failure? && r.error.IllegalState?
    {
      r := Failure(IllegalState(
        "Call getChainAwareTokenFilterFactory to specialize this factory for an analysis chain first"));
    }

    /** Builds the source the configuration names and, while no monitor is
        scheduled yet, schedules one over it every `interval` seconds after an
        initial delay of `interval`, registering the handle under the index
        name. A pool rejection (an `interval` of zero or less) surfaces as an
        IllegalArgumentException, with no handle kept and nothing registered. */
    method GetSynonymFile() returns (r: Result<SynonymFile, Exception>)
      requires scheduler.Valid()
      modifies this`scheduledFuture, scheduler
      ensures scheduler.Valid()
      ensures r.Success? ==>
        var file := r.value;
        && file.Kind() == SelectSource(config.location)
        && (file.Remote? || file.Local? ==> config.location == Some(file.location))
        && (file.Database? ==>
          && fresh(file.db)
          && file.db.url == config.url && file.db.dbTable == config.dbTable
          && file.db.dbUser == config.dbUser && file.db.dbPass == config.dbPass
          && file.db.dicType == Ext.DicType(config.dicType) && file.db.style == Ext.DicStyle(config.dicStyle)
          && file.db.format == config.format && file.db.expand == config.expand && file.db.lenient == config.lenient
          && file.db.lastImportTime == map[])
      ensures old(scheduledFuture).Some? ==>
        && r.Success?
        && scheduledFuture == old(scheduledFuture)
        && unchanged(scheduler)
      ensures old(scheduledFuture).None? && config.interval <= 0 ==>
        && r.Failure? && r.error.IllegalArgument?
        && scheduledFuture == None
        && scheduler.scheduledFutures == old(scheduler.scheduledFutures)
        && scheduler.cancelled == old(scheduler.cancelled)
        && scheduler.issued == old(scheduler.issued)
      ensures old(scheduledFuture).None? && config.interval > 0 ==>
        && r.Success? && scheduledFuture.Some?
        && var h := scheduledFuture.value;
        && fresh(h.task) && h.task.owner == this && h.task.file == r.value
        && h.initialDelay == config.interval && h.period == config.interval
        && h !in old(scheduler.issued) && scheduler.issued == old(scheduler.issued)[h := indexName]
        && scheduler.scheduledFutures == Register(old(scheduler.scheduledFutures), indexName, h)
        && scheduler.cancelled == old(scheduler.cancelled)
    {
      var location := config.location;
      var file;
      if location.None? {
        var db := new Ext.SynonymDb(config.expand, config.lenient, config.format, config.url, config.dbUser,
                                    config.dbPass, config.dbTable, config.dicType, config.dicStyle);
        file := Database(db);
      } else if "http://" <= location.value || "https://" <= location.value {
        file := Remote(location.value);
      } else {
        file := Local(location.value);
      }
      if scheduledFuture.None? {
        var monitor := new Monitor(this, file);
        var scheduled := scheduler.ScheduleAtFixedRate(monitor, config.interval, config.interval);
        if scheduled.Failure? {
          return Failure(IllegalArgument("failed to get synonyms : " + Ext.Str(location)));
        }
        var h := scheduled.value;
        scheduledFuture := Some(h);
        scheduler.RegisterHandle(indexName, h);
      }
      r := Success(file);
    }

    /** Specializes the factory for an analysis chain: picks the source (and
        schedules the monitor if not yet done), then installs the initial map
        built from it. A failure to get the source or to build the map throws
        an IllegalArgumentException; a failed build leaves the monitor
        scheduled. */
    method GetChainAwareTokenFilterFactory(initial: Result<SynonymMap, Exception>)
      returns (r: Result<ChainAwareFactory, Exception>)
      requires scheduler.Valid()
      modifies this`scheduledFuture, this`synonymMap, scheduler
      ensures scheduler.Valid()
      ensures r.Failure? ==> r.error.IllegalArgument? && synonymMap == old(synonymMap)
      ensures old(scheduledFuture).Some? || config.interval > 0 ==> scheduledFuture.Some?
      ensures old(scheduledFuture).Some? ==> scheduledFuture == old(scheduledFuture) && unchanged(scheduler)
      ensures old(scheduledFuture).None? && config.interval <= 0 ==>
        && r.Failure? && scheduledFuture == None
        && scheduler.scheduledFutures == old(scheduler.scheduledFutures)
        && scheduler.cancelled == old(scheduler.cancelled)
      ensures old(scheduledFuture).None? && config.interval > 0 ==>
        && scheduledFuture.Some?
        && var h := scheduledFuture.value;
        && fresh(h.task) && h.task.owner == this
        && h.initialDelay == config.interval && h.period == config.interval
        && h !in old(scheduler.issued) && scheduler.issued == old(scheduler.issued)[h := indexName]
        && scheduler.scheduledFutures == Register(old(scheduler.scheduledFutures), indexName, h)
        && scheduler.cancelled == old(scheduler.cancelled)
      ensures initial.Failure? ==> r.Failure?
      ensures initial.Success? && (old(scheduledFuture).Some? || config.interval > 0) ==>
        && synonymMap == Some(initial.value)
        && r.Success? && fresh(r.value) && r.value.owner == this && r.value.name == name
    {
      var file := GetSynonymFile();
      if file.Failure? || initial.Failure? {
        r := Failure(IllegalArgument("failed to build synonyms"));
      } else {
        synonymMap := Some(initial.value);
        var specialized := new ChainAwareFactory(name, this);
        r := Success(specialized);
      }
    }
  }

  /** The factory specialized for one analysis chain; it reads the owner's
      current map at each creation. */
  class ChainAwareFactory {
    const name: string
    const owner: DynamicSynonymTokenFilterFactory

    constructor(name: string, owner: DynamicSynonymTokenFilterFactory)
      ensures this.name == name && this.owner == owner
    {
      this.name := name;
      this.owner := owner;
    }

    /** An empty map passes the stream through untouched and registers nothing;
        otherwise a new filter over the stream, holding the current map, is
        registered with the owner and returned. */
    method Create(tokenStream: TokenStream) returns (s: Stream)
      requires owner.synonymMap.Some?
      modifies owner`dynamicSynonymFilters
      ensures owner.synonymMap.value.IsEmpty() ==>
        s == Unfiltered(tokenStream) && owner.dynamicSynonymFilters == old(owner.dynamicSynonymFilters)
      ensures !owner.synonymMap.value.IsEmpty() ==>
        && s.Filtered? && fresh(s.filter)
        && s.filter.input == tokenStream && s.filter.synonyms == owner.synonymMap.value
        && owner.dynamicSynonymFilters == old(owner.dynamicSynonymFilters) + {s.filter}
    {
      var current := owner.synonymMap.value;
      if current.fst.None? {
        return Unfiltered(tokenStream);
      }
      var filter := new DynamicSynonymFilter(tokenStream, current);
      owner.dynamicSynonymFilters := owner.dynamicSynonymFilters + {filter};
      s := Filtered(filter);
    }
  }
}
