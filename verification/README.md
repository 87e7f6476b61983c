# Dynamic synonym filter: database rule source and factory lifecycle

A Dafny model of the two sequential cores of the Elasticsearch dynamic-synonym
plugin with a MySQL rule source:

- **`SynonymDb`** (module `Ext`, with the row specifications in `DbRows` and
  string helpers in `Text`): the `dic_type`/`dic_style` defaults, the three SQL
  statements, the freshness check over the `lastImportTime` map keyed by
  `style:type`, the inline and multi-line row extraction, the rule text handed
  to the parser (each line followed by the line separator), and the
  Solr/WordNet dialect dispatch. The database is a function from statement text
  to the rows it answers (`Ext.Database`), date parsing is a function from text
  to epoch milliseconds (`Ext.DateParser`), the map builder is a function from
  dialect, text and flags to a map or a parse failure (`Ext.MapBuilder`), and
  the line separator is a parameter.
- **`DynamicSynonymTokenFilterFactory`** (module `Analysis`): the
  configuration checks and defaults, the choice of rule source from
  `synonyms_path`, the once-per-instance scheduling of the monitor, the
  process-wide registry of handles per index name and its close operation, the
  chain-aware `create` that registers filters, and the monitor tick that
  publishes a reloaded map to every registered filter. The thread pool and the
  static registry are one explicit `Analysis.Scheduler` object; a tick is one
  sequential step whose inputs are the source's freshness answer and the
  reload result. The plugin's `DynamicSynonymFilter` (with `update`) is a
  class of this module.
- `Lucene` holds the opaque collaborators: `SynonymMap` (empty when its
  transducer is absent), `Dialect` and `TokenStream`.

The model follows the code: the code schedules one monitor per factory
instance, not one per index, so two factories of one index run two monitors,
and the first freshness check of a key reports "not stale". The two
exceptions are the
defects listed under Findings: there the code as written is modelled by the
members named in the "as-written member" column, and the rest of the model
(in particular the time statement of `Ext.SynonymDb.IsNeedReloadSynonymMap`
and the registration in `Analysis.Scheduler.RegisterHandle`, which
`Analysis.DynamicSynonymTokenFilterFactory.GetSynonymFile` uses) follows the
corrected form.

## Model

| member | source | states |
|---|---|---|
| `Ext.DicType` | src/main/java/com/bellszhu/elasticsearch/plugin/synonym/ext/SynonymDb.java:84-89 | a NULL or empty `dic_type` becomes `all`, any other value is kept; the result is never empty |
| `Ext.DicStyle` | src/main/java/com/bellszhu/elasticsearch/plugin/synonym/ext/SynonymDb.java:90-94 | a NULL or empty `dic_style` becomes `inline`, any other value is kept; the result is never empty |
| `Ext.SynonymDb.constructor` | src/main/java/com/bellszhu/elasticsearch/plugin/synonym/ext/SynonymDb.java:71-95 | the connection settings and flags are stored as given, type and style through their defaults, and no freshness mark exists yet |
| `Ext.TypeClause` | src/main/java/com/bellszhu/elasticsearch/plugin/synonym/ext/SynonymDb.java:188-190 | the type filter is empty iff the type is `all`; otherwise it quotes exactly the type |
| `Ext.InlineSql` | src/main/java/com/bellszhu/elasticsearch/plugin/synonym/ext/SynonymDb.java:187-190 | the inline statement selects every column of the configured table (NULL rendered as `null`) and ends with the active-row filter followed by the type filter |
| `Ext.MultilineSql` | src/main/java/com/bellszhu/elasticsearch/plugin/synonym/ext/SynonymDb.java:232-235 | the multi-line statement selects every column of the configured table and ends with the in-use, active-row filter followed by the type filter |
| `Ext.LastModifyTimeSql` | src/main/java/com/bellszhu/elasticsearch/plugin/synonym/ext/SynonymDb.java:292-295 | the time statement selects the greatest `update_time` of the configured table and ends with the active-row filter followed by the type filter |
| `Ext.StatementsSelectActiveRows` | src/main/java/com/bellszhu/elasticsearch/plugin/synonym/ext/SynonymDb.java:187 | the inline and time statements select `status = 0` rows; the multi-line statement (line 232) selects `in_use = 1 and status = 0` rows |
| `Ext.StatementsFilterByType` | src/main/java/com/bellszhu/elasticsearch/plugin/synonym/ext/SynonymDb.java:187-190 | each of the three statements (also lines 232-235, 292-295) is its unfiltered form plus one type filter, which is empty exactly when the type is `all` |
| `Ext.FreshnessKey` | src/main/java/com/bellszhu/elasticsearch/plugin/synonym/ext/SynonymDb.java:116 | the key is the style, a colon and the type, both recoverable from it, and is never `all` |
| `Ext.TimeSqlAsWritten` | src/main/java/com/bellszhu/elasticsearch/plugin/synonym/ext/SynonymDb.java:118 | the time statement as line 118 builds it ends with a type filter naming the key, and differs from the time statement for the configured type (see Findings) |
| `Ext.TimeSqlAsWrittenFiltersOnKey` | src/main/java/com/bellszhu/elasticsearch/plugin/synonym/ext/SynonymDb.java:116-118 | the key `style:type` is never `all`, so the time statement as written always carries a type filter, and it names `style:type`, never the type the rules are loaded for |
| `Ext.CheckFreshness` | src/main/java/com/bellszhu/elasticsearch/plugin/synonym/ext/SynonymDb.java:116-128 | an unknown key is recorded at epoch 0 and reported not stale; a known key is stale iff the latest time is strictly newer than its mark, the mark then advancing to it, otherwise nothing changes; no other key changes and no mark decreases |
| `Ext.RepeatedCheckIsFresh` | src/main/java/com/bellszhu/elasticsearch/plugin/synonym/ext/SynonymDb.java:117-124 | after a check has seen a time, a second check that sees no newer time reports not stale and leaves the marks as they were |
| `Ext.FirstCheckThenAdvance` | src/main/java/com/bellszhu/elasticsearch/plugin/synonym/ext/SynonymDb.java:125-127 | the first check of a key is never stale; a later check seeing any time after the epoch is |
| `Ext.SynonymDb.IsNeedReloadSynonymMap` | src/main/java/com/bellszhu/elasticsearch/plugin/synonym/ext/SynonymDb.java:113-129 | the answer and the new marks are those of `CheckFreshness` for key `style:type` and the latest time of the rows of the configured type (time statement for `type`, see Findings) |
| `Ext.SynonymDb.GetLastModifyTime` | src/main/java/com/bellszhu/elasticsearch/plugin/synonym/ext/SynonymDb.java:285-324 | the result is the parse of the last non-empty `update_time` the time statement answers, nothing if there is none |
| `DbRows.LastStampIsLastFilled` | src/main/java/com/bellszhu/elasticsearch/plugin/synonym/ext/SynonymDb.java:299-304 | with no non-empty `update_time` the loop yields nothing; otherwise it yields the parse of the last row that has one |
| `Ext.SynonymDb.GetWordsInline` | src/main/java/com/bellszhu/elasticsearch/plugin/synonym/ext/SynonymDb.java:180-219 | the lines are the inline extraction of the rows the inline statement answers |
| `DbRows.InlineWordsExactly` | src/main/java/com/bellszhu/elasticsearch/plugin/synonym/ext/SynonymDb.java:194-199 | a string is an inline line iff some row carries it as a non-NULL, non-empty `words` |
| `DbRows.InlineWordsAppend` | src/main/java/com/bellszhu/elasticsearch/plugin/synonym/ext/SynonymDb.java:194-198 | inline extraction keeps row order: extracting from concatenated rows concatenates the extractions |
| `Ext.SynonymDb.GetWordsMultiline` | src/main/java/com/bellszhu/elasticsearch/plugin/synonym/ext/SynonymDb.java:224-278 | the lines list the keyword groups of the answered rows, one comma-joined line per main word, each main word exactly once, in the hash map's unspecified key order |
| `Ext.SynonymDb.GroupByMainWord` | src/main/java/com/bellszhu/elasticsearch/plugin/synonym/ext/SynonymDb.java:239-251 | the map the row loop builds is `Group` of the rows, which `DbRows.GroupIsKeywordsOf` ties to each main word's keywords in row order |
| `Ext.SynonymDb.EmitGroups` | src/main/java/com/bellszhu/elasticsearch/plugin/synonym/ext/SynonymDb.java:252-258 | one comma-joined line per key of the map, each key exactly once, in some key order |
| `Ext.SynonymDb.JoinGroup` | src/main/java/com/bellszhu/elasticsearch/plugin/synonym/ext/SynonymDb.java:252-257 | prefixing every word with a comma and removing the first comma yields the words joined by commas |
| `Text.StripLeadingComma` | src/main/java/com/bellszhu/elasticsearch/plugin/synonym/ext/SynonymDb.java:253-257 | `replaceFirst(",", "")` on the comma-prefixed builder equals the comma join, for every word list including the empty one |
| `DbRows.GroupIsKeywordsOf` | src/main/java/com/bellszhu/elasticsearch/plugin/synonym/ext/SynonymDb.java:239-251 | the group of a main word is exactly the non-empty keywords of its rows in row order, and a main word has a group iff it has at least one such keyword |
| `DbRows.KeywordsOfFilled` | src/main/java/com/bellszhu/elasticsearch/plugin/synonym/ext/SynonymDb.java:240-242 | every grouped keyword is non-empty and comes from a row of that main word; rows with a NULL or empty keyword contribute nothing |
| `DbRows.MultilineShape` | src/main/java/com/bellszhu/elasticsearch/plugin/synonym/ext/SynonymDb.java:239-258 | there are as many lines as main words with a keyword; each line is the comma join of that word's keywords, is never empty, and starts with its first keyword |
| `Ext.SynonymDb.GetReader` | src/main/java/com/bellszhu/elasticsearch/plugin/synonym/ext/SynonymDb.java:131-145 | the lines are the multi-line extraction iff the style is `multi_line`, the inline extraction otherwise; the text is every line followed by the separator |
| `Ext.SynonymDb.AppendLines` | src/main/java/com/bellszhu/elasticsearch/plugin/synonym/ext/SynonymDb.java:140-143 | the builder ends up holding every line followed by the separator, in order |
| `Text.ReadJoinedLines` | src/main/java/com/bellszhu/elasticsearch/plugin/synonym/ext/SynonymDb.java:140-144 | a reader that ends lines only at the separator, reading the rule text back, sees exactly the loaded lines, one per separator, when no line contains the one-character separator |
| `Ext.SelectDialect` | src/main/java/com/bellszhu/elasticsearch/plugin/synonym/ext/SynonymDb.java:151-157 | WordNet is chosen iff the format spells `wordnet` with each letter in either case; every other format, including the empty one, chooses Solr |
| `Ext.SynonymDb.ReloadSynonymMap` | src/main/java/com/bellszhu/elasticsearch/plugin/synonym/ext/SynonymDb.java:97-111 | the map is the builder's result on the reader text in the selected dialect with the configured `expand` and `lenient`; a parse failure is an IllegalArgumentException |
| `Analysis.Configure` | src/main/java/com/bellszhu/elasticsearch/plugin/synonym/analysis/DynamicSynonymTokenFilterFactory.java:76-98 | construction fails with IllegalArgumentException iff both `synonyms_path` and `db_url` are absent; otherwise the settings are kept, with `interval` 60, `expand` true, `lenient` false and `format` empty when unset |
| `Analysis.DynamicSynonymTokenFilterFactory.constructor` | src/main/java/com/bellszhu/elasticsearch/plugin/synonym/analysis/DynamicSynonymTokenFilterFactory.java:68-100 | from settings that `Configure` accepts, a new factory keeps the configured values and has no scheduled monitor, no map and no registered filter |
| `Analysis.DynamicSynonymTokenFilterFactory.New` | src/main/java/com/bellszhu/elasticsearch/plugin/synonym/analysis/DynamicSynonymTokenFilterFactory.java:68-100 | construction throws IllegalArgumentException iff both `synonyms_path` and `db_url` are absent; otherwise the new factory holds `Configure`'s values, no monitor, no map and no filter |
| `Analysis.DynamicSynonymTokenFilterFactory.Create` | src/main/java/com/bellszhu/elasticsearch/plugin/synonym/analysis/DynamicSynonymTokenFilterFactory.java:104-108 | the unspecialized entry point fails with IllegalStateException whatever the stream |
| `Analysis.SelectSource` | src/main/java/com/bellszhu/elasticsearch/plugin/synonym/analysis/DynamicSynonymTokenFilterFactory.java:185-195 | no path selects the database, a path starting with `http://` or `https://` the remote document, any other path the local file |
| `Analysis.DynamicSynonymTokenFilterFactory.GetSynonymFile` | src/main/java/com/bellszhu/elasticsearch/plugin/synonym/analysis/DynamicSynonymTokenFilterFactory.java:182-206 | the source variant is the selected one (a database source configured with the factory's settings); while the handle is unset a monitor over it is scheduled with delay and period `interval` and its handle appended to the index's entry (the corrected registration: line 199 replaces the entry, see Findings); an `interval` of zero or less makes the pool throw, surfacing as IllegalArgumentException with no handle kept and nothing registered; once the handle is set it never changes and the scheduler is untouched |
| `Analysis.Scheduler.ScheduleAtFixedRate` | src/main/java/com/bellszhu/elasticsearch/plugin/synonym/analysis/DynamicSynonymTokenFilterFactory.java:197-198 | the pool call: a period of zero or less is rejected with IllegalArgumentException and nothing is scheduled; otherwise a new handle with the given task, delay and period is returned, the registry untouched |
| `Analysis.Scheduler.RegisterHandle` | src/main/java/com/bellszhu/elasticsearch/plugin/synonym/analysis/DynamicSynonymTokenFilterFactory.java:199 | appends the new handle to its index's entry (the corrected registration: line 199 replaces the entry, see Findings), so every handle registered so far stays cancelled or reachable from its index |
| `Analysis.RegisterAsWritten` | src/main/java/com/bellszhu/elasticsearch/plugin/synonym/analysis/DynamicSynonymTokenFilterFactory.java:199 | the registry update as written: the index's handles become exactly the new one, earlier handles of the index are dropped, and no other index changes |
| `Analysis.RegisterAsWrittenOrphansEarlier` | src/main/java/com/bellszhu/elasticsearch/plugin/synonym/analysis/DynamicSynonymTokenFilterFactory.java:199 | with the registry update as written, a second handle for the same index replaces the first, which closing the index can no longer reach |
| `Analysis.Register` | src/main/java/com/bellszhu/elasticsearch/plugin/synonym/analysis/DynamicSynonymTokenFilterFactory.java:199 | registering adds the handle to its index's handles, keeps the ones already there, and changes no other index |
| `Analysis.Scheduler.constructor` | src/main/java/com/bellszhu/elasticsearch/plugin/synonym/analysis/DynamicSynonymTokenFilterFactory.java:43-50 | the process-wide pool and registry start with no handle registered, none cancelled and none issued |
| `Analysis.Scheduler.CloseIndDynamicSynonym` | src/main/java/com/bellszhu/elasticsearch/plugin/synonym/analysis/DynamicSynonymTokenFilterFactory.java:110-119 | the entry of the index is removed and each of its handles cancelled; all other entries are unchanged and an unknown index changes nothing; afterwards every handle ever scheduled for the index is cancelled |
| `Analysis.DynamicSynonymTokenFilterFactory.GetChainAwareTokenFilterFactory` | src/main/java/com/bellszhu/elasticsearch/plugin/synonym/analysis/DynamicSynonymTokenFilterFactory.java:121-130 | the monitor is scheduled (at most once); when it schedules, the handle has delay and period `interval`, its task is a new monitor of this factory, and it is appended to the index's entry (the corrected registration, see Findings) with nothing cancelled, so closing the index cancels it; when scheduling is rejected (`interval` of zero or less) it throws IllegalArgumentException with no handle, nothing registered and the map kept; a failed initial build throws IllegalArgumentException and keeps the previous map, the monitor staying scheduled; otherwise the initial map becomes the current map and a specialized factory of the same name is returned |
| `Analysis.ChainAwareFactory.Create` | src/main/java/com/bellszhu/elasticsearch/plugin/synonym/analysis/DynamicSynonymTokenFilterFactory.java:136-146 | with an empty current map the input stream itself is returned and nothing is registered; otherwise a new filter over the stream holding the current map is returned and added to the registered filters |
| `Analysis.Monitor.constructor` | src/main/java/com/bellszhu/elasticsearch/plugin/synonym/analysis/DynamicSynonymTokenFilterFactory.java:212-214 | a monitor is bound to the factory it publishes to and to the source it polls |
| `Analysis.DynamicSynonymFilter.constructor` | src/main/java/com/bellszhu/elasticsearch/plugin/synonym/analysis/DynamicSynonymTokenFilterFactory.java:142 | a new filter reads the given stream and applies the given map |
| `Analysis.DynamicSynonymFilter.Update` | src/main/java/com/bellszhu/elasticsearch/plugin/synonym/analysis/DynamicSynonymTokenFilterFactory.java:221 | after `update` the filter applies the given map |
| `Analysis.Monitor.Run` | src/main/java/com/bellszhu/elasticsearch/plugin/synonym/analysis/DynamicSynonymTokenFilterFactory.java:216-225 | not stale: the map and every filter are unchanged; stale: the reloaded map becomes the current map and every registered filter then holds it; a failed reload throws and changes nothing |

## Left out

- JDBC connections, statements and result sets, and their closing: each statement's answer is the `Ext.Database` function's rows. A query that throws inside the `try` blocks (the exception is printed and the partial list returned) is not modelled.
- `Ext.SynonymDb.IsNeedReloadSynonymMap`: requires that the time statement yields a date when the key is already known; without one the source throws a NullPointerException at line 119, which the model does not represent.
- `SimpleDateFormat` parsing: a parameter (`Ext.DateParser`) returning epoch milliseconds or nothing.
- The rule grammars (`ESSolrSynonymParser`, `ESWordnetSynonymParser`), the analyzer built by `buildSynonymAnalyzer`, and `SynonymMap` construction: one parameter (`Ext.MapBuilder`); the map is opaque apart from being empty.
- `Ext.SelectDialect` folds case for ASCII letters only; `equalsIgnoreCase` also folds other alphabets, which does not affect comparisons with `wordnet`.
- `RemoteSynonymFile` and `LocalSynonymFile` are not part of this model: only which variant is chosen, and its location, is modelled.
- `Analysis.Monitor.Run`: the source's freshness answer and reload result are inputs; for the database source they are `Ext.SynonymDb.IsNeedReloadSynonymMap` and `Ext.SynonymDb.ReloadSynonymMap`.
- `Analysis.DynamicSynonymTokenFilterFactory.GetChainAwareTokenFilterFactory`: the initial map is an input rather than the reload of the source just built.
- `Analysis.ChainAwareFactory.Create`: requires the owner's map to be set, which holds in the source because the specialized factory is only returned after the map is assigned.
- Threads, the scheduled thread pool and thread naming, `volatile`, `ConcurrentHashMap` and `CopyOnWriteArrayList` thread safety, the timing of ticks, and the interrupt in `cancel(true)`: the registry is a plain map and a tick one step.
- An exception escaping a tick stops the executor from running that task again; the model reports the exception but does not mark the task as stopped.
- `WeakHashMap` reclamation of filters: the registered filters are an explicit set that only grows.
- Logging, the `ignore_case` deprecation warning, the unused `updateable` setting, the `IDENTITY_FILTER` returned by `getSynonymFilter`, and the `name()` accessor.
- Typed settings parsing (`getAsInt`, `getAsBoolean` failing on malformed values): settings arrive already typed.
- The static JDBC driver loader, the no-argument `SynonymDb` constructor and the `main` demo.
- `Analysis.DynamicSynonymTokenFilterFactory.constructor`: requires settings that `Configure` accepts, since a Dafny constructor cannot throw; the rejection is modelled by `Analysis.DynamicSynonymTokenFilterFactory.New`.
- Pool rejections other than a non-positive period (a shut-down pool, a null task) cannot occur in the model.
- The platform `line.separator` property: a parameter of `Ext.SynonymDb.GetReader`.

## Findings

| source | as written | input that shows it | evidently intended | confidence | as-written member | corrected member |
|---|---|---|---|---|---|---|
| src/main/java/com/bellszhu/elasticsearch/plugin/synonym/ext/SynonymDb.java:118 | `getLastModifyTime(key)` is passed the map key `style + ":" + type`, so the time statement filters `type = 'inline:car'` | `dic_type` = `car`, `dic_style` unset: the rules are loaded with `type = 'car'` but their update time is read with `type = 'inline:car'`; when no row has that type, `max(update_time)` is NULL and line 119 throws on the second tick | pass `type`, the parameter's documented meaning, so the time statement filters like the loading statements | medium, not executed | `Ext.TimeSqlAsWritten`, `Ext.TimeSqlAsWrittenFiltersOnKey` | `Ext.SynonymDb.IsNeedReloadSynonymMap`, `Ext.StatementsFilterByType` |
| src/main/java/com/bellszhu/elasticsearch/plugin/synonym/analysis/DynamicSynonymTokenFilterFactory.java:199 | `scheduledFutures.put(indexName, [handle])` replaces the index's list | two dynamic synonym filters on one index: each factory schedules its monitor, the second `put` drops the first handle, and `closeIndDynamicSynonym(index)` cancels only the second; the first keeps polling after the index is closed | add the handle to the index's list, so closing the index cancels every monitor scheduled for it | medium, not executed | `Analysis.RegisterAsWritten`, `Analysis.RegisterAsWrittenOrphansEarlier` | `Analysis.Register`, `Analysis.Scheduler.RegisterHandle`, `Analysis.DynamicSynonymTokenFilterFactory.GetSynonymFile`, `Analysis.Scheduler.CloseIndDynamicSynonym` |
