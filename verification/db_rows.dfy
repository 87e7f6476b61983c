/** Rows of the synonym table as result sets deliver them, and the reference
    definitions of what the row loops of the database rule source extract. */
module DbRows {
  import opened Wrappers
  import opened Text

  /** One row of the synonym table; any column may be SQL NULL. */
  datatype Row = Row(
    words: Option<string>,
    keyword: Option<string>,
    mainWord: Option<string>,
    updateTime: Option<string>)

  /** A column that is neither NULL nor the empty string. */
  predicate Filled(cell: Option<string>)
  {
    cell.Some? && cell.value != ""
  }

  // ---------------------------------------------------------------- inline

  /** The `words` of every row whose `words` is filled, in row order. */
  function InlineWords(rows: seq<Row>): seq<string>
  {
    if rows == [] then []
    else
      var r := rows[|rows| - 1];
      InlineWords(rows[..|rows| - 1]) + (if Filled(r.words) then [r.words.value] else [])
  }

  /** Extraction keeps row order: the words of a concatenation are the concatenated words. */
  lemma {:induction false} InlineWordsAppend(a: seq<Row>, b: seq<Row>)
    ensures InlineWords(a + b) == InlineWords(a) + InlineWords(b)
  {
    if b == [] {
      assert a + b == a;
    } else {
      var init := b[..|b| - 1];
      assert (a + b)[..|a + b| - 1] == a + init;
      assert (a + b)[|a + b| - 1] == b[|b| - 1];
      InlineWordsAppend(a, init);
    }
  }

  /** A string is extracted exactly when some row carries it as a non-empty `words`. */
  lemma {:induction false} InlineWordsExactly(rows: seq<Row>, w: string)
    ensures w in InlineWords(rows) <==> exists i :: 0 <= i < |rows| && rows[i].words == Some(w) && w != ""
  {
    if rows != [] {
      var init := rows[..|rows| - 1];
      var r := rows[|rows| - 1];
      InlineWordsExactly(init, w);
      if exists i :: 0 <= i < |rows| && rows[i].words == Some(w) && w != "" {
        var i :| 0 <= i < |rows| && rows[i].words == Some(w) && w != "";
        if i < |rows| - 1 {
          assert init[i] == rows[i];
        }
      }
      if w in InlineWords(init) {
        var i :| 0 <= i < |init| && init[i].words == Some(w) && w != "";
        assert rows[i] == init[i];
      }
    }
  }

  // ------------------------------------------------------------ multi-line

  /** Keywords grouped by main word; the key NULL is a main word like any other. */
  type Groups = map<Option<string>, seq<string>>

  function Lookup(g: Groups, k: Option<string>): seq<string>
  {
    if k in g then g[k] else []
  }

  /** The map the row loop builds: each row with a filled keyword appends that
      keyword to the list of its main word, creating the list on first use. */
  function Group(rows: seq<Row>): Groups
  {
    if rows == [] then map[]
    else
      var g := Group(rows[..|rows| - 1]);
      var r := rows[|rows| - 1];
      if Filled(r.keyword) then g[r.mainWord := Lookup(g, r.mainWord) + [r.keyword.value]] else g
  }

  /** Reference definition: the filled keywords of the rows whose main word is `k`, in row order. */
  function KeywordsOf(rows: seq<Row>, k: Option<string>): seq<string>
  {
    if rows == [] then []
    else
      var r := rows[|rows| - 1];
      KeywordsOf(rows[..|rows| - 1], k) + (if r.mainWord == k && Filled(r.keyword) then [r.keyword.value] else [])
  }

  /** Each group is exactly the keywords of its main word, and a main word has a
      group exactly when at least one of its rows has a filled keyword. */
  lemma {:induction false} GroupIsKeywordsOf(rows: seq<Row>, k: Option<string>)
    ensures Lookup(Group(rows), k) == KeywordsOf(rows, k)
    ensures k in Group(rows) <==> KeywordsOf(rows, k) != []
  {
    if rows != [] {
      GroupIsKeywordsOf(rows[..|rows| - 1], k);
    }
  }

  /** Every keyword of a group is non-empty and comes from a row of that main word. */
  lemma {:induction false} KeywordsOfFilled(rows: seq<Row>, k: Option<string>, j: nat)
    requires j < |KeywordsOf(rows, k)|
    ensures KeywordsOf(rows, k)[j] != ""
    ensures exists i :: 0 <= i < |rows| && rows[i].mainWord == k && rows[i].keyword == Some(KeywordsOf(rows, k)[j])
  {
    var init := rows[..|rows| - 1];
    var r := rows[|rows| - 1];
    if j < |KeywordsOf(init, k)| {
      KeywordsOfFilled(init, k, j);
      var i :| 0 <= i < |init| && init[i].mainWord == k && init[i].keyword == Some(KeywordsOf(init, k)[j]);
      assert rows[i] == init[i];
    } else {
      assert KeywordsOf(rows, k)[j] == r.keyword.value;
    }
  }

  /** `lines` lists the groups of `g` in the key order `order`: one comma-joined
      line per main word, each main word exactly once. */
  ghost predicate ListsGroups(g: Groups, lines: seq<string>, order: seq<Option<string>>)
  {
    && |order| == |lines|
    && (forall i, j :: 0 <= i < j < |order| ==> order[i] != order[j])
    && (forall k :: k in g <==> k in order)
    && (forall i :: 0 <= i < |order| ==> order[i] in g && lines[i] == Join(g[order[i]], ","))
  }

  lemma {:induction false} DistinctCard<T>(s: seq<T>)
    requires forall i, j :: 0 <= i < j < |s| ==> s[i] != s[j]
    ensures |set x | x in s| == |s|
  {
    if s != [] {
      var tail := s[1..];
      DistinctCard(tail);
      assert (set x | x in s) == {s[0]} + (set x | x in tail);
    }
  }

  /** The multi-line rule lines: one per main word with a filled keyword, each the
      comma join of that word's keywords in row order, never empty and starting
      with the first keyword. */
  lemma MultilineShape(rows: seq<Row>, lines: seq<string>, order: seq<Option<string>>)
    requires ListsGroups(Group(rows), lines, order)
    ensures |lines| == |Group(rows)|
    ensures forall i :: 0 <= i < |lines| ==>
      && KeywordsOf(rows, order[i]) != []
      && lines[i] == Join(KeywordsOf(rows, order[i]), ",")
      && KeywordsOf(rows, order[i])[0] <= lines[i]
      && lines[i] != ""
  {
    var g := Group(rows);
    DistinctCard(order);
    assert g.Keys == set x | x in order;
    forall i | 0 <= i < |lines|
      ensures KeywordsOf(rows, order[i]) != []
      ensures lines[i] == Join(KeywordsOf(rows, order[i]), ",")
      ensures KeywordsOf(rows, order[i])[0] <= lines[i]
      ensures lines[i] != ""
    {
      var ks := KeywordsOf(rows, order[i]);
      GroupIsKeywordsOf(rows, order[i]);
      KeywordsOfFilled(rows, order[i], 0);
      JoinStartsWithFirst(ks, ",");
    }
  }

  // ------------------------------------------------------------ update time

  /** The value the time loop ends with: the parse of the last filled
      `update_time`, or nothing when no row has one. */
  function LastStamp(rows: seq<Row>, parse: string -> Option<int>): Option<int>
  {
    if rows == [] then None
    else
      var r := rows[|rows| - 1];
      if Filled(r.updateTime) then parse(r.updateTime.value) else LastStamp(rows[..|rows| - 1], parse)
  }

  lemma {:induction false} LastStampIsLastFilled(rows: seq<Row>, parse: string -> Option<int>)
    ensures (forall i :: 0 <= i < |rows| ==> !Filled(rows[i].updateTime)) ==> LastStamp(rows, parse) == None
    ensures forall i :: (0 <= i < |rows| && Filled(rows[i].updateTime)
                         && (forall j :: i < j < |rows| ==> !Filled(rows[j].updateTime)))
                         ==> LastStamp(rows, parse) == parse(rows[i].updateTime.value)
  {
    if rows != [] {
      var init := rows[..|rows| - 1];
      LastStampIsLastFilled(init, parse);
      if forall i :: 0 <= i < |rows| ==> !Filled(rows[i].updateTime) {
        forall i | 0 <= i < |init| ensures !Filled(init[i].updateTime) {
          assert init[i] == rows[i];
        }
      }
      forall i | 0 <= i < |rows| && Filled(rows[i].updateTime)
        && (forall j :: i < j < |rows| ==> !Filled(rows[j].updateTime))
        ensures LastStamp(rows, parse) == parse(rows[i].updateTime.value)
      {
        if i < |rows| - 1 {
          assert !Filled(rows[|rows| - 1].updateTime);
          assert init[i] == rows[i];
          forall j | i < j < |init| ensures !Filled(init[j].updateTime) {
            assert init[j] == rows[j];
          }
        }
      }
    }
  }
}
