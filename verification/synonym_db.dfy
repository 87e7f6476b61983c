/** The relational-table rule source: configuration defaults, the statements it
    sends, the freshness check, the rule text it hands to the parser, and the
    dialect dispatch. The database is a function from statement text to the
    rows it answers; date parsing is a function from text to epoch milliseconds. */
module Ext {
  import opened Wrappers
  import opened Text
  import opened DbRows
  import opened Lucene

  /** The database connection: the rows answered for a statement. */
  type Database = string -> seq<Row>

  /** `SimpleDateFormat("yyyy-MM-dd HH:mm:ss").parse`, yielding epoch milliseconds or nothing. */
  type DateParser = string -> Option<int>

  /** Builds a synonym map from rule text in a dialect with the `expand` and
      `lenient` flags; nothing when the text does not parse. */
  type MapBuilder = (Dialect, string, bool, bool) -> Option<SynonymMap>

  // ------------------------------------------------------------ defaults

  /** `dic_type`: NULL or empty means every type. */
  function DicType(t: Option<string>): (r: string)
    ensures r != ""
    ensures t.None? || t.value == "" ==> r == "all"
    ensures t.Some? && t.value != "" ==> r == t.value
  {
    if t.None? || t.value == "" then "all" else t.value
  }

  /** `dic_style`: NULL or empty means one synonym group per row. */
  function DicStyle(s: Option<string>): (r: string)
    ensures r != ""
    ensures s.None? || s.value == "" ==> r == "inline"
    ensures s.Some? && s.value != "" ==> r == s.value
  {
    if s.None? || s.value == "" then "inline" else s.value
  }

  /** The key under which the freshness mark of a style and type is kept. */
  function FreshnessKey(style: string, dicType: string): (key: string)
    ensures |key| == |style| + 1 + |dicType|
    ensures key[..|style|] == style && key[|style|] == ':' && key[|style| + 1..] == dicType
    ensures key != "all"
  {
    style + ":" + dicType
  }

  // ------------------------------------------------------------ statements

  /** Java string concatenation of a possibly null reference. */
  function Str(s: Option<string>): string
  {
    if s.None? then "null" else s.value
  }

  /** The type filter: none for `all`, otherwise a filter naming exactly the type. */
  function TypeClause(dicType: string): (clause: string)
    ensures clause == "" <==> dicType == "all"
    ensures dicType != "all" ==> |clause| == |dicType| + 14 && clause[13..|clause| - 1] == dicType
  {
    if dicType != "all" then " and type = '" + dicType + "'" else ""
  }

  /** The inline statement: every column of the table, active rows of the type. */
  function InlineSql(table: Option<string>, dicType: string): (sql: string)
    ensures "select * from " + Str(table) <= sql
    ensures EndsWith(sql, " where status = 0" + TypeClause(dicType))
  {
    var sql := "select * from " + Str(table) + " where status = 0" + TypeClause(dicType);
    StatementShape("select * from " + Str(table), " where status = 0", TypeClause(dicType));
    sql
  }

  /** The multi-line statement: every column of the table, rows in use and active, of the type. */
  function MultilineSql(table: Option<string>, dicType: string): (sql: string)
    ensures "select * from " + Str(table) <= sql
    ensures EndsWith(sql, " where in_use = 1 and status = 0" + TypeClause(dicType))
  {
    var sql := "select * from " + Str(table) + " where in_use = 1 and status = 0" + TypeClause(dicType);
    StatementShape("select * from " + Str(table), " where in_use = 1 and status = 0", TypeClause(dicType));
    sql
  }

  /** The time statement: the greatest `update_time` of the table's active rows of the type. */
  function LastModifyTimeSql(table: Option<string>, dicType: string): (sql: string)
    ensures "select max(update_time) as update_time from " + Str(table) <= sql
    ensures EndsWith(sql, " where status = 0" + TypeClause(dicType))
  {
    var sql := "select max(update_time) as update_time from " + Str(table) + " where status = 0" + TypeClause(dicType);
    StatementShape("select max(update_time) as update_time from " + Str(table), " where status = 0", TypeClause(dicType));
    sql
  }

  /** Suffix test, for the filters the statements end with. */
  predicate EndsWith(s: string, suffix: string)
  {
    |suffix| <= |s| && s[|s| - |suffix|..] == suffix
  }

  /** A statement built as head, filter and type clause starts with the head
      and ends with the filter followed by the clause. */
  lemma StatementShape(head: string, filter: string, clause: string)
    ensures head <= head + filter + clause
    ensures EndsWith(head + filter + clause, filter + clause)
  {
    assert head + filter + clause == head + (filter + clause);
    assert (head + (filter + clause))[..|head|] == head;
    assert (head + (filter + clause))[|head|..] == filter + clause;
  }

  /** All three statements select active rows (`status = 0`), the multi-line one
      also `in_use = 1`. */
  lemma StatementsSelectActiveRows(table: Option<string>)
    ensures EndsWith(InlineSql(table, "all"), " where status = 0")
    ensures EndsWith(MultilineSql(table, "all"), " where in_use = 1 and status = 0")
    ensures EndsWith(LastModifyTimeSql(table, "all"), " where status = 0")
  {
    var from := Str(table);
    assert TypeClause("all") == "";
    assert InlineSql(table, "all") == ("select * from " + from) + " where status = 0";
    EndsWithAppended("select * from " + from, " where status = 0");
    assert MultilineSql(table, "all") == ("select * from " + from) + " where in_use = 1 and status = 0";
    EndsWithAppended("select * from " + from, " where in_use = 1 and status = 0");
    assert LastModifyTimeSql(table, "all") == ("select max(update_time) as update_time from " + from) + " where status = 0";
    EndsWithAppended("select max(update_time) as update_time from " + from, " where status = 0");
  }

  lemma EndsWithAppended(prefix: string, suffix: string)
    ensures EndsWith(prefix + suffix, suffix)
  {
    assert (prefix + suffix)[|prefix|..] == suffix;
  }

  /** The type filter is appended to the unfiltered statement exactly when the
      type is not `all`, and it is the same filter in all three statements. */
  lemma StatementsFilterByType(table: Option<string>, dicType: string)
    ensures TypeClause(dicType) == "" <==> dicType == "all"
    ensures InlineSql(table, dicType) == InlineSql(table, "all") + TypeClause(dicType)
    ensures MultilineSql(table, dicType) == MultilineSql(table, "all") + TypeClause(dicType)
    ensures LastModifyTimeSql(table, dicType) == LastModifyTimeSql(table, "all") + TypeClause(dicType)
  {
  }

  /** The time statement as SynonymDb.java:118 sends it: the freshness key
      `style:type` is passed where a type is expected. */
  function TimeSqlAsWritten(table: Option<string>, style: string, dicType: string): (sql: string)
    ensures EndsWith(sql, " where status = 0" + TypeClause(FreshnessKey(style, dicType)))
    ensures sql != LastModifyTimeSql(table, dicType)
  {
    var key := FreshnessKey(style, dicType);
    StatementsFilterByType(table, key);
    StatementsFilterByType(table, dicType);
    assert |TypeClause(key)| != |TypeClause(dicType)|;
    LastModifyTimeSql(table, key)
  }

  /** The key is never `all`, so the as-written statement always carries a type
      filter, and that filter names `<style>:<type>`: never the filter of the
      statements that load the rules, so the rows whose time is watched are not
      the rows loaded. */
  lemma TimeSqlAsWrittenFiltersOnKey(table: Option<string>, style: string, dicType: string)
    ensures FreshnessKey(style, dicType) != "all"
    ensures TimeSqlAsWritten(table, style, dicType)
         == LastModifyTimeSql(table, "all") + TypeClause(FreshnessKey(style, dicType))
    ensures TypeClause(FreshnessKey(style, dicType)) != "" && TypeClause(FreshnessKey(style, dicType)) != TypeClause(dicType)
  {
    var key := FreshnessKey(style, dicType);
    StatementsFilterByType(table, key);
    assert |TypeClause(key)| != |TypeClause(dicType)|;
  }

  // ------------------------------------------------------------ freshness

  /** One freshness check over the marks: an unknown key is recorded at epoch 0
      and reported fresh; a known key is stale exactly when the latest time is
      newer than its mark, and then the mark advances to that time. */
  function CheckFreshness(marks: map<string, int>, key: string, latest: Option<int>): (result: (bool, map<string, int>))
    requires key in marks ==> latest.Some?
    ensures result.1.Keys == marks.Keys + {key}
    ensures forall k :: k in marks && k != key ==> result.1[k] == marks[k]
    ensures key !in marks ==> !result.0 && result.1[key] == 0
    ensures key in marks ==> (result.0 <==> latest.value > marks[key])
    ensures key in marks && !result.0 ==> result.1 == marks
    ensures key in marks && result.0 ==> result.1[key] == latest.value
    ensures forall k :: k in marks ==> result.1[k] >= marks[k]
  {
    if key in marks then
      if latest.value > marks[key] then (true, marks[key := latest.value]) else (false, marks)
    else
      (false, marks[key := 0])
  }

  /** Once a check has seen a time, a later check that sees no newer time
      reports fresh and changes nothing. */
  lemma RepeatedCheckIsFresh(marks: map<string, int>, key: string, t: int, t': int)
    requires key in marks
    requires t' <= t
    ensures var first := CheckFreshness(marks, key, Some(t));
            var second := CheckFreshness(first.1, key, Some(t'));
            !second.0 && second.1 == first.1
  {
  }

  /** The first check of a key never reports stale; a later check whose time
      is after the epoch does. */
  lemma FirstCheckThenAdvance(marks: map<string, int>, key: string, t: int)
    requires key !in marks
    requires t > 0
    ensures var first := CheckFreshness(marks, key, None);
            !first.0 && CheckFreshness(first.1, key, Some(t)).0
  {
  }

  // ------------------------------------------------------------ dialect

  /** `wordnet` in any letter case selects the WordNet grammar, anything else
      Solr: exactly the seven-letter spellings of `wordnet`, each letter in
      either case, select WordNet. */
  function SelectDialect(format: string): (d: Dialect)
    ensures d == WordNet <==>
      |format| == 7 && forall i :: 0 <= i < 7 ==> format[i] == "wordnet"[i] || format[i] == "WORDNET"[i]
  {
    if EqualsIgnoreCase(format, "wordnet") then WordNet else Solr
  }

  // ------------------------------------------------------------ the source

  class SynonymDb {
    const format: string
    const expand: bool
    const lenient: bool
    const url: Option<string>
    const dbUser: Option<string>
    const dbPass: Option<string>
    const dbTable: Option<string>
    const dicType: string
    const style: string
    /** The freshness mark per `style:type` key, in epoch milliseconds. */
    var lastImportTime: map<string, int>

    constructor(expand: bool, lenient: bool, format: string, url: Option<string>, dbUser: Option<string>,
                dbPwd: Option<string>, dbTable: Option<string>, dicType: Option<string>, style: Option<string>)
      ensures this.expand == expand && this.lenient == lenient && this.format == format
      ensures this.url == url && this.dbUser == dbUser && this.dbPass == dbPwd && this.dbTable == dbTable
      ensures this.dicType == DicType(dicType) && this.style == DicStyle(style)
      ensures lastImportTime == map[]
    {
      this.expand := expand;
      this.lenient := lenient;
      this.format := format;
      this.url := url;
      this.dbUser := dbUser;
      this.dbPass := dbPwd;
      this.dbTable := dbTable;
      this.dicType := DicType(dicType);
      this.style := DicStyle(style);
      lastImportTime := map[];
    }

    /** The latest update time of the active rows of a type. */
    method GetLastModifyTime(dicType: string, db: Database, parse: DateParser) returns (rt: Option<int>)
      ensures rt == LastStamp(db(LastModifyTimeSql(dbTable, dicType)), parse)
    {
      var rows := db(LastModifyTimeSql(dbTable, dicType));
      rt := None;
      var i := 0;
      while i < |rows|
        invariant 0 <= i <= |rows|
        invariant rt == LastStamp(rows[..i], parse)
      {
        var createTime := rows[i].updateTime;
        if createTime.Some? && createTime.value != "" {
          rt := parse(createTime.value);
        }
        assert rows[..i + 1][..i] == rows[..i];
        i := i + 1;
      }
      assert rows[..|rows|] == rows;
    }

    /** Whether the rules changed since the last check; the mark of the
        freshness key moves as `CheckFreshness` says. The time statement is
        sent for `dicType` (see TimeSqlAsWritten for the statement as written). */
    method IsNeedReloadSynonymMap(db: Database, parse: DateParser) returns (stale: bool)
      requires FreshnessKey(style, dicType) in lastImportTime ==>
        LastStamp(db(LastModifyTimeSql(dbTable, dicType)), parse).Some?
      modifies this`lastImportTime
      ensures (stale, lastImportTime)
        == CheckFreshness(old(lastImportTime), FreshnessKey(style, dicType), LastStamp(db(LastModifyTimeSql(dbTable, dicType)), parse))
    {
      var key := style + ":" + dicType;
      if key in lastImportTime {
        var last := GetLastModifyTime(dicType, db, parse);
        if last.value > lastImportTime[key] {
          lastImportTime := lastImportTime[key := last.value];
          stale := true;
        } else {
          stale := false;
        }
      } else {
        lastImportTime := lastImportTime[key := 0];
        stale := false;
      }
    }

    /** One rule line per row with non-empty `words`, in row order. */
    method GetWordsInline(dicType: string, db: Database) returns (data: seq<string>)
      ensures data == InlineWords(db(InlineSql(dbTable, dicType)))
    {
      var rows := db(InlineSql(dbTable, dicType));
      data := [];
      var i := 0;
      while i < |rows|
        invariant 0 <= i <= |rows|
        invariant data == InlineWords(rows[..i])
      {
        var words := rows[i].words;
        if words.Some? && words.value != "" {
          data := data + [words.value];
        }
        assert rows[..i + 1][..i] == rows[..i];
        i := i + 1;
      }
      assert rows[..|rows|] == rows;
    }

    /** The comma join of one group, built as the source builds it: a comma
        before every word, then the first comma removed. */
    static method JoinGroup(words: seq<string>) returns (line: string)
      ensures line == Join(words, ",")
    {
      var sb := "";
      var i := 0;
      while i < |words|
        invariant 0 <= i <= |words|
        invariant sb == Prefixed(words[..i], ",")
      {
        sb := sb + "," + words[i];
        assert words[..i + 1][..i] == words[..i];
        i := i + 1;
      }
      assert words[..|words|] == words;
      line := ReplaceFirst(sb, ',');
      StripLeadingComma(words);
    }

    /** The row loop of the multi-line extraction: each row with a filled
        keyword appends it to the list of its main word. */
    static method GroupByMainWord(rows: seq<Row>) returns (m: Groups)
      ensures m == Group(rows)
    {
      m := map[];
      var i := 0;
      while i < |rows|
        invariant 0 <= i <= |rows|
        invariant m == Group(rows[..i])
      {
        assert rows[..i + 1][..i] == rows[..i] && rows[..i + 1][i] == rows[i];
        var keyword := rows[i].keyword;
        var mainWord := rows[i].mainWord;
        if keyword.Some? && keyword.value != "" {
          if mainWord in m {
            m := m[mainWord := m[mainWord] + [keyword.value]];
          } else {
            assert Lookup(m, mainWord) + [keyword.value] == [keyword.value];
            m := m[mainWord := [keyword.value]];
          }
        }
        i := i + 1;
      }
      assert rows[..|rows|] == rows;
    }

    /** The key loop of the multi-line extraction: one comma-joined line per
        main word, in some order of the keys (a hash map's iteration order is
        unspecified). */
    static method EmitGroups(m: Groups) returns (data: seq<string>)
      ensures exists order :: ListsGroups(m, data, order)
    {
      ghost var order := [];
      data := [];
      var keys := m.Keys;
      while keys != {}
        invariant keys <= m.Keys
        invariant |order| == |data|
        invariant forall a, b :: 0 <= a < b < |order| ==> order[a] != order[b]
        invariant forall k :: k in order <==> k in m && k !in keys
        invariant forall a :: 0 <= a < |order| ==> order[a] in m && data[a] == Join(m[order[a]], ",")
        decreases keys
      {
        var k :| k in keys;
        var line := JoinGroup(m[k]);
        data, order := data + [line], order + [k];
        keys := keys - {k};
      }
      assert ListsGroups(m, data, order);
    }

    /** One rule line per main word with a filled keyword, in some order of
        the main words. */
    method GetWordsMultiline(dicType: string, db: Database) returns (data: seq<string>)
      ensures exists order :: ListsGroups(Group(db(MultilineSql(dbTable, dicType))), data, order)
    {
      var m := GroupByMainWord(db(MultilineSql(dbTable, dicType)));
      data := EmitGroups(m);
    }

    /** Whether this source reads the multi-line row shape. */
    predicate MultiLine()
    {
      style == "multi_line"
    }

    /** `lines` are the rule lines this source loads from `db`. */
    ghost predicate RuleLines(db: Database, lines: seq<string>)
    {
      if MultiLine() then exists order :: ListsGroups(Group(db(MultilineSql(dbTable, dicType))), lines, order)
      else lines == InlineWords(db(InlineSql(dbTable, dicType)))
    }

    /** `text` is a rule text this source can hand to the parser: its rule
        lines, each followed by the line separator. */
    ghost predicate RuleText(db: Database, sep: string, text: string)
    {
      exists lines :: RuleLines(db, lines) && text == JoinLines(lines, sep)
    }

    /** The builder loop of the rule text: every line followed by the separator. */
    static method AppendLines(data: seq<string>, sep: string) returns (text: string)
      ensures text == JoinLines(data, sep)
    {
      text := "";
      var i := 0;
      while i < |data|
        invariant 0 <= i <= |data|
        invariant text == JoinLines(data[..i], sep)
      {
        JoinLinesSnoc(data[..i], data[i], sep);
        assert data[..i + 1] == data[..i] + [data[i]];
        text := text + data[i] + sep;
        i := i + 1;
      }
      assert data[..|data|] == data;
    }

    /** The rule text: every loaded line followed by the line separator. */
    method GetReader(db: Database, sep: string) returns (text: string)
      ensures RuleText(db, sep, text)
    {
      var data: seq<string>;
      if style == "multi_line" {
        data := GetWordsMultiline(dicType, db);
      } else {
        data := GetWordsInline(dicType, db);
      }
      text := AppendLines(data, sep);
      assert RuleLines(db, data) && text == JoinLines(data, sep);
    }

    /** Loads the rule text and parses it in the configured dialect; a parse
        failure surfaces as an IllegalArgumentException. */
    method ReloadSynonymMap(db: Database, sep: string, build: MapBuilder)
      returns (r: Result<SynonymMap, Exception>, ghost text: string)
      ensures RuleText(db, sep, text)
      ensures r.Success? <==> build(SelectDialect(format), text, expand, lenient).Some?
      ensures r.Success? ==> r.value == build(SelectDialect(format), text, expand, lenient).value
      ensures r.Failure? ==> r.error.IllegalArgument?
    {
      var rulesReader := GetReader(db, sep);
      text := rulesReader;
      var dialect := SelectDialect(format);
      var built := build(dialect, rulesReader, expand, lenient);
      if built.Some? {
        r := Success(built.value);
      } else {
        r := Failure(IllegalArgument("could not reload local synonyms file to build synonyms"));
      }
    }
  }
}
