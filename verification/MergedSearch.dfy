/** Merging the best rows of several stores into one ranking. */
module MergedSearch {

  datatype Row = Row(id: string, score: real, category: string, weight: real)

  /** A store with its label and weight, and the rows it returned. */
  datatype Source = Source(category: string, weight: real, rows: seq<Row>)

  // ---------------------------------------------------------------- specification

  function Tag(row: Row, source: Source): Row {
    row.(category := source.category, weight := source.weight)
  }

  function TaggedRows(source: Source, rows: seq<Row>): seq<Row> {
    if rows == [] then []
    else TaggedRows(source, rows[..|rows| - 1]) +
         if rows[|rows| - 1].id == "" then [] else [Tag(rows[|rows| - 1], source)]
  }

  /** All rows that have an id, marked with their store, in the order they come in. */
  function Tagged(sources: seq<Source>): seq<Row> {
    if sources == [] then []
    else Tagged(sources[..|sources| - 1]) + TaggedRows(sources[|sources| - 1], sources[|sources| - 1].rows)
  }

  /** Where an id is, or the number of rows. */
  function Position(rows: seq<Row>, id: string): nat {
    if rows == [] then 0 else if rows[0].id == id then 0 else 1 + Position(rows[1..], id)
  }

  /** The kept rows with one more: a better copy replaces the one kept. */
  function Put(kept: seq<Row>, row: Row): seq<Row> {
    var at := Position(kept, row.id);
    if at >= |kept| then kept + [row]
    else if row.score <= kept[at].score then kept
    else kept[at := row]
  }

  function Merge(rows: seq<Row>): seq<Row> {
    if rows == [] then [] else Put(Merge(rows[..|rows| - 1]), rows[|rows| - 1])
  }

  /** A row put behind all rows of at least its score. */
  function Insert(ranked: seq<Row>, row: Row): seq<Row> {
    if ranked == [] || ranked[|ranked| - 1].score >= row.score then ranked + [row]
    else Insert(ranked[..|ranked| - 1], row) + [ranked[|ranked| - 1]]
  }

  /** The rows by descending score, equal scores in their order. */
  function Ranked(rows: seq<Row>): seq<Row> {
    if rows == [] then [] else Insert(Ranked(rows[..|rows| - 1]), rows[|rows| - 1])
  }

  // ---------------------------------------------------------------- the program

  method Search(sources: seq<Source>) returns (ranking: seq<Row>)
    ensures ranking == Ranked(Merge(Tagged(sources)))
  {
    var merged: seq<Row> := [];
    for i: nat := 0 to |sources|
      invariant merged == Merge(Tagged(sources[..i]))
    {
      assert sources[..i + 1][..i] == sources[..i];
      hide Merge, Tagged;
      merged := AddStore(merged, sources[i], Tagged(sources[..i]));
      TaggedStep(sources, i);
    }
    assert sources[..|sources|] == sources;
    ranking := Ranked(merged);
  }

  lemma TaggedStep(sources: seq<Source>, i: nat)
    requires i < |sources|
    ensures Tagged(sources[..i + 1]) == Tagged(sources[..i]) + TaggedRows(sources[i], sources[i].rows)
  {
    assert sources[..i + 1][..i] == sources[..i];
  }

  /** The inner loop: one store's rows. */
  method AddStore(merged: seq<Row>, source: Source, ghost before: seq<Row>) returns (more: seq<Row>)
    requires merged == Merge(before)
    ensures more == Merge(before + TaggedRows(source, source.rows))
  {
    more := merged;
    assert before + [] == before;
    var rows := source.rows;
    for i: nat := 0 to |rows|
      invariant more == Merge(before + TaggedRows(source, rows[..i]))
    {
      assert rows[..i + 1][..i] == rows[..i];
      var row := rows[i];
      ghost var tagged := TaggedRows(source, rows[..i]);
      if row.id == "" {
        assert TaggedRows(source, rows[..i + 1]) == tagged;
        continue;
      }
      assert TaggedRows(source, rows[..i + 1]) == tagged + [Tag(row, source)];
      MergeStep(before, tagged, Tag(row, source));
      hide Merge, TaggedRows;
      var at := Position(more, row.id);
      if at < |more| {
        if row.score <= more[at].score { continue; }
        more := more[at := Tag(row, source)];
      } else {
        more := more + [Tag(row, source)];
      }
    }
    assert rows[..|rows|] == rows;
  }

  lemma MergeStep(before: seq<Row>, tagged: seq<Row>, row: Row)
    ensures Merge(before + (tagged + [row])) == Put(Merge(before + tagged), row)
  {
    assert (before + (tagged + [row]))[..|before + (tagged + [row])| - 1] == before + tagged;
    assert (before + (tagged + [row]))[|before + tagged|] == row;
  }

  // ---------------------------------------------------------------- ranking

  predicate Descending(rows: seq<Row>) {
    forall i, j :: 0 <= i < j < |rows| ==> rows[i].score >= rows[j].score
  }

  lemma {:induction false} InsertDescends(ranked: seq<Row>, row: Row)
    requires Descending(ranked)
    ensures Descending(Insert(ranked, row))
    ensures forall r :: r in Insert(ranked, row) <==> r in ranked || r == row
  {
    if ranked != [] && ranked[|ranked| - 1].score < row.score {
      var front, last := ranked[..|ranked| - 1], ranked[|ranked| - 1];
      InsertDescends(front, row);
      assert ranked == front + [last];
      forall i | 0 <= i < |Insert(front, row)| ensures Insert(front, row)[i].score >= last.score {
        assert Insert(front, row)[i] in Insert(front, row);
      }
    }
  }

  lemma {:induction false} RankedDescends(rows: seq<Row>)
    ensures Descending(Ranked(rows))
    ensures forall r :: r in Ranked(rows) <==> r in rows
  {
    if rows != [] {
      RankedDescends(rows[..|rows| - 1]);
      InsertDescends(Ranked(rows[..|rows| - 1]), rows[|rows| - 1]);
      assert rows == rows[..|rows| - 1] + [rows[|rows| - 1]];
    }
  }

  /** The rows of one score. */
  function WithScore(rows: seq<Row>, score: real): seq<Row> {
    if rows == [] then []
    else WithScore(rows[..|rows| - 1], score) + if rows[|rows| - 1].score == score then [rows[|rows| - 1]] else []
  }

  lemma WithScorePut(rows: seq<Row>, row: Row, score: real)
    ensures WithScore(rows + [row], score) == WithScore(rows, score) + if row.score == score then [row] else []
  {
    assert (rows + [row])[..|rows + [row]| - 1] == rows;
  }

  lemma {:induction false} InsertKeepsOrder(ranked: seq<Row>, row: Row, score: real)
    requires Descending(ranked)
    ensures WithScore(Insert(ranked, row), score) == WithScore(ranked, score) + if row.score == score then [row] else []
  {
    if ranked == [] || ranked[|ranked| - 1].score >= row.score {
      WithScorePut(ranked, row, score);
    } else {
      var front, last := ranked[..|ranked| - 1], ranked[|ranked| - 1];
      InsertKeepsOrder(front, row, score);
      WithScorePut(Insert(front, row), last, score);
      if row.score == score { NoneBelow(front, score); }
    }
  }

  lemma NoneBelow(front: seq<Row>, score: real)
    ensures WithScore(front, score) + [] == WithScore(front, score)
  {
  }

  /** The ranking is a stable sort: the rows of each score, and their order, are kept. */
  lemma {:induction false} RankingIsStable(rows: seq<Row>, score: real)
    ensures WithScore(Ranked(rows), score) == WithScore(rows, score)
  {
    if rows != [] {
      RankingIsStable(rows[..|rows| - 1], score);
      RankedDescends(rows[..|rows| - 1]);
      InsertKeepsOrder(Ranked(rows[..|rows| - 1]), rows[|rows| - 1], score);
    }
  }

  predicate DistinctIds(rows: seq<Row>) {
    forall i, j :: 0 <= i < j < |rows| ==> rows[i].id != rows[j].id
  }

  predicate HasId(rows: seq<Row>, id: string) {
    exists i :: 0 <= i < |rows| && rows[i].id == id
  }

  lemma {:induction false} InsertDistinct(ranked: seq<Row>, row: Row)
    requires Descending(ranked) && DistinctIds(ranked) && !HasId(ranked, row.id)
    ensures DistinctIds(Insert(ranked, row)) && |Insert(ranked, row)| == |ranked| + 1
  {
    if ranked != [] && ranked[|ranked| - 1].score < row.score {
      var front, last := ranked[..|ranked| - 1], ranked[|ranked| - 1];
      forall i | 0 <= i < |front| ensures front[i].id != row.id && front[i].id != last.id {
        assert ranked[i].id != row.id && ranked[i].id != ranked[|front|].id;
      }
      assert last.id != row.id;
      InsertDistinct(front, row);
      InsertDescends(front, row);
      forall i | 0 <= i < |Insert(front, row)| ensures Insert(front, row)[i].id != last.id {
        assert Insert(front, row)[i] in Insert(front, row);
      }
    }
  }

  lemma {:induction false} RankedDistinct(rows: seq<Row>)
    requires DistinctIds(rows)
    ensures DistinctIds(Ranked(rows)) && |Ranked(rows)| == |rows|
  {
    if rows != [] {
      var front, last := rows[..|rows| - 1], rows[|rows| - 1];
      RankedDistinct(front);
      RankedDescends(front);
      forall i | 0 <= i < |Ranked(front)| ensures Ranked(front)[i].id != last.id {
        assert Ranked(front)[i] in Ranked(front);
        var j :| 0 <= j < |front| && front[j] == Ranked(front)[i];
        assert rows[j].id != rows[|front|].id;
      }
      InsertDistinct(Ranked(front), last);
    }
  }

  // ---------------------------------------------------------------- merging

  lemma {:induction false} PositionIs(rows: seq<Row>, id: string)
    ensures Position(rows, id) <= |rows|
    ensures Position(rows, id) < |rows| ==> rows[Position(rows, id)].id == id
    ensures Position(rows, id) == |rows| ==> !HasId(rows, id)
  {
    if rows != [] && rows[0].id != id {
      PositionIs(rows[1..], id);
      if Position(rows[1..], id) == |rows| - 1 {
        forall i | 0 <= i < |rows| ensures rows[i].id != id { assert i == 0 || rows[1..][i - 1].id != id; }
      }
    }
  }

  /** The row is the first of the best rows of its id. */
  ghost predicate FirstBest(rows: seq<Row>, row: Row) {
    exists j :: 0 <= j < |rows| && FirstBestAt(rows, row, j)
  }

  ghost predicate FirstBestAt(rows: seq<Row>, row: Row, j: nat)
    requires j < |rows|
  {
    rows[j] == row && forall i :: 0 <= i < |rows| && rows[i].id == row.id ==>
      rows[i].score <= row.score && (i < j ==> rows[i].score < row.score)
  }

  ghost predicate KeepsBest(kept: seq<Row>, rows: seq<Row>) {
    && DistinctIds(kept)
    && (forall i :: 0 <= i < |kept| ==> FirstBest(rows, kept[i]))
    && (forall i :: 0 <= i < |rows| ==> HasId(kept, rows[i].id))
  }

  lemma FirstBestStays(rows: seq<Row>, row: Row, added: Row)
    requires FirstBest(rows, row) && (added.id == row.id ==> added.score <= row.score)
    ensures FirstBest(rows + [added], row)
  {
    var j :| 0 <= j < |rows| && FirstBestAt(rows, row, j);
    var all := rows + [added];
    forall i | 0 <= i < |all| && all[i].id == row.id
      ensures all[i].score <= row.score && (i < j ==> all[i].score < row.score)
    {
      if i < |rows| { assert all[i] == rows[i]; }
    }
    assert FirstBestAt(all, row, j);
  }

  lemma FirstBestNew(rows: seq<Row>, added: Row)
    requires forall i :: 0 <= i < |rows| && rows[i].id == added.id ==> rows[i].score < added.score
    ensures FirstBest(rows + [added], added)
  {
    assert FirstBestAt(rows + [added], added, |rows|);
  }

  lemma FirstBestBeats(rows: seq<Row>, kept: Row, added: Row)
    requires FirstBest(rows, kept) && kept.id == added.id && kept.score < added.score
    ensures FirstBest(rows + [added], added)
  {
    var j :| 0 <= j < |rows| && FirstBestAt(rows, kept, j);
    FirstBestNew(rows, added);
  }

  lemma HasIdKept(kept: seq<Row>, at: nat, row: Row, id: string)
    requires at < |kept| && kept[at].id == row.id && HasId(kept, id)
    ensures HasId(kept[at := row], id)
  {
    var i :| 0 <= i < |kept| && kept[i].id == id;
    assert kept[at := row][i].id == id;
  }

  lemma HasIdPut(kept: seq<Row>, row: Row, id: string)
    requires HasId(kept, id) || row.id == id
    ensures HasId(kept + [row], id)
  {
    if row.id == id {
      assert (kept + [row])[|kept|].id == id;
    } else {
      var i :| 0 <= i < |kept| && kept[i].id == id;
      assert (kept + [row])[i].id == id;
    }
  }

  lemma PutNew(kept: seq<Row>, rows: seq<Row>, row: Row)
    requires KeepsBest(kept, rows) && !HasId(kept, row.id)
    ensures KeepsBest(kept + [row], rows + [row])
  {
    hide FirstBest;
    var after, all := kept + [row], rows + [row];
    forall i | 0 <= i < |after| ensures FirstBest(all, after[i]) {
      if i < |kept| {
        FirstBestStays(rows, kept[i], row);
      } else {
        assert forall j :: 0 <= j < |rows| ==> rows[j].id != row.id;
        FirstBestNew(rows, row);
      }
    }
    hide HasId;
    forall i | 0 <= i < |all| ensures HasId(after, all[i].id) { HasIdPut(kept, row, all[i].id); }
  }

  lemma PutBetter(kept: seq<Row>, rows: seq<Row>, row: Row, at: nat)
    requires KeepsBest(kept, rows) && at < |kept| && kept[at].id == row.id && kept[at].score < row.score
    ensures KeepsBest(kept[at := row], rows + [row])
  {
    hide FirstBest;
    var after, all := kept[at := row], rows + [row];
    forall i | 0 <= i < |after| ensures FirstBest(all, after[i]) {
      if i == at {
        FirstBestBeats(rows, kept[at], row);
      } else {
        assert kept[i].id != kept[at].id;
        FirstBestStays(rows, kept[i], row);
      }
    }
    assert HasId(after, row.id) by { assert after[at].id == row.id; }
    hide HasId;
    forall i | 0 <= i < |all| ensures HasId(after, all[i].id) {
      if i < |rows| { HasIdKept(kept, at, row, rows[i].id); }
    }
  }

  lemma PutWorse(kept: seq<Row>, rows: seq<Row>, row: Row, at: nat)
    requires KeepsBest(kept, rows) && at < |kept| && kept[at].id == row.id && row.score <= kept[at].score
    ensures KeepsBest(kept, rows + [row])
  {
    hide FirstBest;
    forall i | 0 <= i < |kept| ensures FirstBest(rows + [row], kept[i]) {
      if i != at { assert kept[i].id != kept[at].id; }
      FirstBestStays(rows, kept[i], row);
    }
    assert HasId(kept, row.id);
  }

  /** Merging keeps each id once, with the first of its best rows. */
  lemma {:induction false} MergeKeepsBest(rows: seq<Row>)
    ensures KeepsBest(Merge(rows), rows)
  {
    if rows != [] {
      var front, last := rows[..|rows| - 1], rows[|rows| - 1];
      MergeKeepsBest(front);
      assert rows == front + [last];
      var kept := Merge(front);
      hide KeepsBest, Merge;
      PositionIs(kept, last.id);
      var at := Position(kept, last.id);
      if at >= |kept| {
        PutNew(kept, front, last);
      } else if last.score <= kept[at].score {
        PutWorse(kept, front, last, at);
      } else {
        PutBetter(kept, front, last, at);
      }
    }
  }

  /** The result holds each returned id once, at its best returned score, in descending order. */
  lemma SearchResult(sources: seq<Source>)
    ensures var returned, ranking := Tagged(sources), Ranked(Merge(Tagged(sources)));
            && Descending(ranking) && DistinctIds(ranking)
            && (forall i :: 0 <= i < |ranking| ==> FirstBest(returned, ranking[i]))
            && (forall i :: 0 <= i < |returned| ==> HasId(ranking, returned[i].id))
  {
    hide Tagged, Merge, Ranked, FirstBest, Descending, DistinctIds;
    var returned := Tagged(sources);
    var kept := Merge(returned);
    MergeKeepsBest(returned);
    RankedDescends(kept);
    RankedDistinct(kept);
    var ranking := Ranked(kept);
    forall i | 0 <= i < |ranking| ensures FirstBest(returned, ranking[i]) { assert ranking[i] in kept; }
    forall i | 0 <= i < |returned| ensures HasId(ranking, returned[i].id) {
      assert HasId(kept, returned[i].id);
      var j :| 0 <= j < |kept| && kept[j].id == returned[i].id;
      assert kept[j] in ranking;
    }
  }

  // ---------------------------------------------------------------- selecting over all stores

  /** What a store returns for k: its k best rows, or all if there are fewer. */
  ghost predicate BestOf(rows: seq<Row>, all: seq<Row>, k: nat) {
    && |rows| <= k && DistinctIds(rows)
    && (forall i :: 0 <= i < |rows| ==> rows[i] in all && rows[i].id != "")
    && (forall row :: row in all && row !in rows ==>
          |rows| == k && forall i :: 0 <= i < |rows| ==> row.score <= rows[i].score)
  }

  /** Every source returns its best rows of a store, the same stores as searched in full. */
  ghost predicate Returns(sources: seq<Source>, stores: seq<Source>, k: nat) {
    |sources| == |stores| && forall i :: 0 <= i < |sources| ==> ReturnsAt(sources, stores, k, i)
  }

  ghost predicate ReturnsAt(sources: seq<Source>, stores: seq<Source>, k: nat, i: nat)
    requires i < |sources| && i < |stores|
  {
    && sources[i].category == stores[i].category && sources[i].weight == stores[i].weight
    && BestOf(sources[i].rows, stores[i].rows, k)
  }

  /** The ids that have a row of at least the score. */
  ghost function IdsAbove(rows: seq<Row>, score: real): set<string> {
    set row | row in rows && row.score >= score :: row.id
  }

  lemma SubsetSize(a: set<string>, b: set<string>)
    requires a <= b
    ensures |a| <= |b|
  {
    assert b == a + (b - a);
  }

  lemma {:induction false} TaggedRowsAre(source: Source, rows: seq<Row>, row: Row)
    ensures row in TaggedRows(source, rows) <==> exists q :: q in rows && q.id != "" && row == Tag(q, source)
  {
    if rows != [] {
      var front, last := rows[..|rows| - 1], rows[|rows| - 1];
      TaggedRowsAre(source, front, row);
      assert rows == front + [last];
      assert forall q :: q in rows <==> q in front || q == last;
    }
  }

  lemma {:induction false} TaggedAre(sources: seq<Source>, row: Row)
    ensures row in Tagged(sources) <==>
            exists i :: 0 <= i < |sources| && row in TaggedRows(sources[i], sources[i].rows)
  {
    hide TaggedRows;
    if sources != [] {
      var front, last := sources[..|sources| - 1], sources[|sources| - 1];
      TaggedAre(front, row);
      assert forall i :: 0 <= i < |front| ==> sources[i] == front[i];
      if row in TaggedRows(last, last.rows) { assert row in TaggedRows(sources[|front|], sources[|front|].rows); }
    }
  }

  lemma TaggedFrom(sources: seq<Source>, row: Row) returns (i: nat, q: Row)
    requires row in Tagged(sources)
    ensures i < |sources| && q in sources[i].rows && q.id != "" && row == Tag(q, sources[i])
  {
    hide Tagged, TaggedRows;
    TaggedAre(sources, row);
    i :| 0 <= i < |sources| && row in TaggedRows(sources[i], sources[i].rows);
    TaggedRowsAre(sources[i], sources[i].rows, row);
    q :| q in sources[i].rows && q.id != "" && row == Tag(q, sources[i]);
  }

  lemma TaggedHas(sources: seq<Source>, i: nat, q: Row)
    requires i < |sources| && q in sources[i].rows && q.id != ""
    ensures Tag(q, sources[i]) in Tagged(sources)
  {
    hide Tagged, TaggedRows;
    TaggedAre(sources, Tag(q, sources[i]));
    TaggedRowsAre(sources[i], sources[i].rows, Tag(q, sources[i]));
  }

  /** Merging and ranking change nothing about which ids reach a score. */
  lemma RankingAbove(sources: seq<Source>, score: real)
    ensures IdsAbove(Ranked(Merge(Tagged(sources))), score) == IdsAbove(Tagged(sources), score)
  {
    hide Tagged, Merge, Ranked, Descending, DistinctIds;
    SearchResult(sources);
    var returned, ranking := Tagged(sources), Ranked(Merge(Tagged(sources)));
    forall id | id in IdsAbove(ranking, score) ensures id in IdsAbove(returned, score) {
      var row :| row in ranking && row.score >= score && row.id == id;
      assert FirstBest(returned, row);
    }
    forall id | id in IdsAbove(returned, score) ensures id in IdsAbove(ranking, score) {
      var row :| row in returned && row.score >= score && row.id == id;
      ReachesRanking(returned, ranking, row);
    }
  }

  lemma ReachesRanking(returned: seq<Row>, ranking: seq<Row>, row: Row)
    requires row in returned
    requires forall i :: 0 <= i < |ranking| ==> FirstBest(returned, ranking[i])
    requires forall i :: 0 <= i < |returned| ==> HasId(ranking, returned[i].id)
    ensures exists best :: best in ranking && best.id == row.id && best.score >= row.score
  {
    var n :| 0 <= n < |returned| && returned[n] == row;
    assert HasId(ranking, returned[n].id);
    var m :| 0 <= m < |ranking| && ranking[m].id == row.id;
    assert FirstBest(returned, ranking[m]);
    var j :| 0 <= j < |returned| && FirstBestAt(returned, ranking[m], j);
    assert returned[n].score <= ranking[m].score;
    assert ranking[m] in ranking;
  }

  /** In a descending ranking of distinct ids the rows of at least a score come first. */
  lemma {:induction false} AboveIsPrefix(ranking: seq<Row>, score: real)
    requires Descending(ranking) && DistinctIds(ranking)
    ensures var n := |IdsAbove(ranking, score)|;
            n <= |ranking| && forall i :: 0 <= i < |ranking| ==> (i < n <==> ranking[i].score >= score)
  {
    if ranking == [] {
      assert IdsAbove(ranking, score) == {};
    } else {
      var front, last := ranking[..|ranking| - 1], ranking[|ranking| - 1];
      assert ranking == front + [last];
      AboveIsPrefix(front, score);
      forall i | 0 <= i < |front| ensures front[i].score >= last.score && front[i].id != last.id {
        assert ranking[i].score >= ranking[|front|].score && ranking[i].id != ranking[|front|].id;
      }
      AboveLast(front, last, score);
      var n, before := |IdsAbove(ranking, score)|, |IdsAbove(front, score)|;
      hide IdsAbove, Descending, DistinctIds;
      if last.score >= score && |front| > 0 { assert front[|front| - 1].score >= score; }
      forall i | 0 <= i < |ranking| ensures i < n <==> ranking[i].score >= score {
        if i < |front| { assert ranking[i] == front[i] && (i < before <==> front[i].score >= score); }
      }
    }
  }

  lemma AboveLast(front: seq<Row>, last: Row, score: real)
    requires forall i :: 0 <= i < |front| ==> front[i].id != last.id
    ensures |IdsAbove(front + [last], score)| == |IdsAbove(front, score)| + if last.score >= score then 1 else 0
  {
    var before, all := IdsAbove(front, score), IdsAbove(front + [last], score);
    assert last.id !in before;
    assert forall row :: row in front + [last] <==> row in front || row == last;
    if last.score >= score {
      assert all == before + {last.id};
    } else {
      assert all == before;
    }
  }

  lemma {:induction false} DistinctCount(rows: seq<Row>, score: real)
    requires DistinctIds(rows) && forall i :: 0 <= i < |rows| ==> rows[i].score >= score
    ensures |IdsAbove(rows, score)| == |rows|
  {
    if rows == [] {
      assert IdsAbove(rows, score) == {};
    } else {
      var front, last := rows[..|rows| - 1], rows[|rows| - 1];
      assert rows == front + [last];
      DistinctCount(front, score);
      forall i | 0 <= i < |front| ensures front[i].id != last.id { assert rows[i].id != rows[|front|].id; }
      AboveLast(front, last, score);
    }
  }

  lemma PartAbove(sources: seq<Source>, stores: seq<Source>, k: nat, score: real)
    requires Returns(sources, stores, k)
    ensures IdsAbove(Tagged(sources), score) <= IdsAbove(Tagged(stores), score)
  {
    hide Tagged;
    forall id | id in IdsAbove(Tagged(sources), score) ensures id in IdsAbove(Tagged(stores), score) {
      var row :| row in Tagged(sources) && row.score >= score && row.id == id;
      var i, q := TaggedFrom(sources, row);
      assert ReturnsAt(sources, stores, k, i);
      TaggedHas(stores, i, q);
      assert Tag(q, stores[i]).score >= score && Tag(q, stores[i]).id == id;
    }
  }

  /** A store that holds back a row of some score has returned k ids of at least that score. */
  lemma HeldBack(sources: seq<Source>, stores: seq<Source>, k: nat, score: real, i: nat, q: Row)
    requires Returns(sources, stores, k) && i < |sources|
    requires q in stores[i].rows && q !in sources[i].rows && q.score >= score
    ensures |IdsAbove(Tagged(sources), score)| >= k
  {
    hide Tagged;
    assert ReturnsAt(sources, stores, k, i);
    var rows := sources[i].rows;
    DistinctCount(rows, score);
    forall id | id in IdsAbove(rows, score) ensures id in IdsAbove(Tagged(sources), score) {
      var row :| row in rows && row.score >= score && row.id == id;
      TaggedHas(sources, i, row);
      assert Tag(row, sources[i]).score >= score && Tag(row, sources[i]).id == id;
    }
    SubsetSize(IdsAbove(rows, score), IdsAbove(Tagged(sources), score));
  }

  lemma FullAbove(sources: seq<Source>, stores: seq<Source>, k: nat, score: real)
    requires Returns(sources, stores, k) && |IdsAbove(Tagged(sources), score)| < k
    ensures IdsAbove(Tagged(stores), score) <= IdsAbove(Tagged(sources), score)
  {
    hide Tagged;
    forall id | id in IdsAbove(Tagged(stores), score) ensures id in IdsAbove(Tagged(sources), score) {
      var row :| row in Tagged(stores) && row.score >= score && row.id == id;
      var i, q := TaggedFrom(stores, row);
      if q in sources[i].rows {
        TaggedHas(sources, i, q);
        assert Tag(q, sources[i]).score >= score && Tag(q, sources[i]).id == id;
      } else {
        HeldBack(sources, stores, k, score, i, q);
      }
    }
  }

  /** The first k scores are those of a search over everything the stores hold: each id
      at its best score in any store, the best k of them. */
  lemma TopScores(sources: seq<Source>, stores: seq<Source>, k: nat, i: nat)
    requires Returns(sources, stores, k) && i < k
    ensures var ranking, full := Ranked(Merge(Tagged(sources))), Ranked(Merge(Tagged(stores)));
            && (i < |ranking| <==> i < |full|)
            && (i < |ranking| && i < |full| ==> ranking[i].score == full[i].score)
  {
    hide Tagged, Merge, Ranked, Returns, FirstBest, IdsAbove, Descending, DistinctIds, HasId;
    SearchResult(sources);
    SearchResult(stores);
    var ranking, full := Ranked(Merge(Tagged(sources))), Ranked(Merge(Tagged(stores)));
    if i < |ranking| { NotBelow(sources, stores, k, i); }
    if i < |full| { NotAbove(sources, stores, k, i); }
  }

  lemma NotBelow(sources: seq<Source>, stores: seq<Source>, k: nat, i: nat)
    requires Returns(sources, stores, k) && i < |Ranked(Merge(Tagged(sources)))|
    ensures i < |Ranked(Merge(Tagged(stores)))|
    ensures Ranked(Merge(Tagged(stores)))[i].score >= Ranked(Merge(Tagged(sources)))[i].score
  {
    hide Tagged, Merge, Ranked, Returns, FirstBest, IdsAbove, Descending, DistinctIds, HasId;
    SearchResult(sources);
    SearchResult(stores);
    var ranking, full := Ranked(Merge(Tagged(sources))), Ranked(Merge(Tagged(stores)));
    var score := ranking[i].score;
    AboveIsPrefix(ranking, score);
    AboveIsPrefix(full, score);
    RankingAbove(sources, score);
    RankingAbove(stores, score);
    PartAbove(sources, stores, k, score);
    SubsetSize(IdsAbove(Tagged(sources), score), IdsAbove(Tagged(stores), score));
  }

  lemma NotAbove(sources: seq<Source>, stores: seq<Source>, k: nat, i: nat)
    requires Returns(sources, stores, k) && i < k && i < |Ranked(Merge(Tagged(stores)))|
    ensures i < |Ranked(Merge(Tagged(sources)))|
    ensures Ranked(Merge(Tagged(sources)))[i].score >= Ranked(Merge(Tagged(stores)))[i].score
  {
    hide Tagged, Merge, Ranked, Returns, FirstBest, IdsAbove, Descending, DistinctIds, HasId;
    SearchResult(sources);
    SearchResult(stores);
    var ranking, full := Ranked(Merge(Tagged(sources))), Ranked(Merge(Tagged(stores)));
    var score := full[i].score;
    AboveIsPrefix(ranking, score);
    AboveIsPrefix(full, score);
    RankingAbove(sources, score);
    RankingAbove(stores, score);
    if |IdsAbove(Tagged(sources), score)| < k {
      FullAbove(sources, stores, k, score);
      SubsetSize(IdsAbove(Tagged(stores), score), IdsAbove(Tagged(sources), score));
    }
  }

  // ---------------------------------------------------------------- where rows come from

  /** A row of a store: which store, and which of its rows. */
  datatype Place = Place(store: nat, row: nat)

  /** Rows without an id are passed over. */
  predicate IsPlace(sources: seq<Source>, place: Place) {
    && place.store < |sources| && place.row < |sources[place.store].rows|
    && |sources[place.store].rows[place.row].id| > 0
  }

  predicate ComesBefore(a: Place, b: Place) {
    a.store < b.store || (a.store == b.store && a.row < b.row)
  }

  /** The row with the label and the weight of its store. */
  predicate IsMarked(row: Row, sources: seq<Source>, place: Place) {
    && IsPlace(sources, place)
    && var source := sources[place.store];
       && row.id == source.rows[place.row].id && row.score == source.rows[place.row].score
       && row.category == source.category && row.weight == source.weight
  }

  ghost predicate AreMarked(rows: seq<Row>, places: seq<Place>, sources: seq<Source>) {
    && |places| == |rows|
    && (forall n :: 0 <= n < |rows| ==> IsMarked(rows[n], sources, places[n]))
    && (forall m, n :: 0 <= m < n < |places| ==> ComesBefore(places[m], places[n]))
  }

  /** The rows of the stores, each once, in the order the stores give them. */
  ghost predicate Follows(rows: seq<Row>, places: seq<Place>, sources: seq<Source>) {
    AreMarked(rows, places, sources) && forall place :: IsPlace(sources, place) ==> place in places
  }

  /** Those of the first n rows of store k. */
  ghost predicate FollowsIn(rows: seq<Row>, places: seq<Place>, sources: seq<Source>, k: nat, n: nat) {
    && AreMarked(rows, places, sources)
    && (forall m :: 0 <= m < |places| ==> places[m].store == k && places[m].row < n)
    && forall place :: IsPlace(sources, place) && place.store == k && place.row < n ==> place in places
  }

  lemma {:induction false} RowsFollow(sources: seq<Source>, k: nat, n: nat) returns (places: seq<Place>)
    requires k < |sources| && n <= |sources[k].rows|
    ensures FollowsIn(TaggedRows(sources[k], sources[k].rows[..n]), places, sources, k, n)
    decreases n
  {
    if n == 0 {
      places := [];
    } else {
      var rows := sources[k].rows;
      assert rows[..n][..n - 1] == rows[..n - 1];
      places := RowsFollow(sources, k, n - 1);
      if rows[n - 1].id != "" { places := places + [Place(k, n - 1)]; }
    }
  }

  lemma MarkedInFront(row: Row, sources: seq<Source>, k: nat, place: Place)
    requires k <= |sources| && IsMarked(row, sources[..k], place)
    ensures IsMarked(row, sources, place) && place.store < k
  {
  }

  lemma MarkedJoin(a: seq<Row>, p: seq<Place>, b: seq<Row>, q: seq<Place>, sources: seq<Source>)
    requires AreMarked(a, p, sources) && AreMarked(b, q, sources)
    requires forall m, n :: 0 <= m < |p| && 0 <= n < |q| ==> ComesBefore(p[m], q[n])
    ensures AreMarked(a + b, p + q, sources)
  {
    hide IsMarked, ComesBefore;
    var places := p + q;
    forall m, n | 0 <= m < n < |places| ensures ComesBefore(places[m], places[n]) {
      if n < |p| {
        assert ComesBefore(p[m], p[n]);
      } else if m < |p| {
        assert ComesBefore(p[m], q[n - |p|]);
      } else {
        assert ComesBefore(q[m - |p|], q[n - |p|]);
      }
    }
  }

  lemma AllMarkedInFront(rows: seq<Row>, places: seq<Place>, sources: seq<Source>, k: nat)
    requires k <= |sources| && AreMarked(rows, places, sources[..k])
    ensures AreMarked(rows, places, sources) && forall n :: 0 <= n < |places| ==> places[n].store < k
  {
    hide IsMarked, ComesBefore;
    forall n | 0 <= n < |places| ensures IsMarked(rows[n], sources, places[n]) && places[n].store < k {
      MarkedInFront(rows[n], sources, k, places[n]);
    }
  }

  lemma FollowsPut(a: seq<Row>, p: seq<Place>, b: seq<Row>, q: seq<Place>, sources: seq<Source>)
    requires sources != []
    requires Follows(a, p, sources[..|sources| - 1])
    requires FollowsIn(b, q, sources, |sources| - 1, |sources[|sources| - 1].rows|)
    ensures Follows(a + b, p + q, sources)
  {
    var k := |sources| - 1;
    AllMarkedInFront(a, p, sources, k);
    hide AreMarked;
    MarkedJoin(a, p, b, q, sources);
    forall place | IsPlace(sources, place) ensures place in p + q {
      assert IsPlace(sources[..k], place) ==> place in p;
      assert place.store == k ==> place in q;
    }
  }

  /** What is merged: every row with an id, marked with its store, in the order it comes. */
  lemma {:induction false} TaggedFollows(sources: seq<Source>) returns (places: seq<Place>)
    ensures Follows(Tagged(sources), places, sources)
  {
    if sources == [] {
      places := [];
    } else {
      var k := |sources| - 1;
      hide TaggedRows, Follows, FollowsIn;
      var before := TaggedFollows(sources[..k]);
      var own := RowsFollow(sources, k, |sources[k].rows|);
      assert sources[k].rows[..|sources[k].rows|] == sources[k].rows;
      FollowsPut(Tagged(sources[..k]), before, TaggedRows(sources[k], sources[k].rows), own, sources);
      places := before + own;
    }
  }

  // ---------------------------------------------------------------- the order of equal scores

  /** The first row of an id is row i. */
  predicate FirstOf(rows: seq<Row>, id: string, i: nat) {
    i < |rows| && rows[i].id == id && forall j :: 0 <= j < i ==> rows[j].id != id
  }

  /** One id appears before another does. */
  ghost predicate FirstBefore(rows: seq<Row>, a: string, b: string) {
    forall i: nat, j: nat :: FirstOf(rows, a, i) && FirstOf(rows, b, j) ==> i < j
  }

  /** The ids first appear in the order of the kept rows. */
  ghost predicate InOrder(kept: seq<Row>, rows: seq<Row>) {
    forall m, n :: 0 <= m < n < |kept| ==> FirstBefore(rows, kept[m].id, kept[n].id)
  }

  lemma FirstInFront(rows: seq<Row>, row: Row, id: string, i: nat)
    requires FirstOf(rows + [row], id, i) && HasId(rows, id)
    ensures FirstOf(rows, id, i)
  {
    var j :| 0 <= j < |rows| && rows[j].id == id;
    var all := rows + [row];
    assert all[j].id == id;
    forall k | 0 <= k < i && k < |rows| ensures rows[k].id != id { assert all[k].id != id; }
  }

  lemma StaysBefore(rows: seq<Row>, row: Row, a: string, b: string)
    requires FirstBefore(rows, a, b) && HasId(rows, a) && HasId(rows, b)
    ensures FirstBefore(rows + [row], a, b)
  {
    hide HasId, FirstOf;
    forall i: nat, j: nat | FirstOf(rows + [row], a, i) && FirstOf(rows + [row], b, j) ensures i < j {
      FirstInFront(rows, row, a, i);
      FirstInFront(rows, row, b, j);
    }
  }

  lemma NewComesLast(rows: seq<Row>, row: Row, a: string)
    requires HasId(rows, a) && !HasId(rows, row.id)
    ensures FirstBefore(rows + [row], a, row.id)
  {
    var all := rows + [row];
    assert forall k :: 0 <= k < |rows| ==> rows[k].id != row.id && all[k] == rows[k];
    forall i: nat, j: nat | FirstOf(all, a, i) && FirstOf(all, row.id, j) ensures i < j {
      FirstInFront(rows, row, a, i);
    }
  }

  ghost predicate AllIn(kept: seq<Row>, rows: seq<Row>) {
    forall m :: 0 <= m < |kept| ==> HasId(rows, kept[m].id)
  }

  lemma MergedHave(rows: seq<Row>)
    ensures AllIn(Merge(rows), rows)
  {
    var kept := Merge(rows);
    MergeKeepsBest(rows);
    hide Merge;
    forall m | 0 <= m < |kept| ensures HasId(rows, kept[m].id) {
      assert FirstBest(rows, kept[m]);
      var j :| 0 <= j < |rows| && FirstBestAt(rows, kept[m], j);
    }
  }

  lemma StaysInOrder(kept: seq<Row>, rows: seq<Row>, row: Row)
    requires InOrder(kept, rows) && AllIn(kept, rows)
    ensures InOrder(kept, rows + [row])
  {
    hide HasId, FirstBefore;
    forall m, n | 0 <= m < n < |kept| ensures FirstBefore(rows + [row], kept[m].id, kept[n].id) {
      StaysBefore(rows, row, kept[m].id, kept[n].id);
    }
  }

  lemma AddedInOrder(kept: seq<Row>, rows: seq<Row>, row: Row)
    requires InOrder(kept, rows) && AllIn(kept, rows) && !HasId(rows, row.id)
    ensures InOrder(kept + [row], rows + [row])
  {
    StaysInOrder(kept, rows, row);
    hide HasId, FirstBefore;
    var after := kept + [row];
    forall m, n | 0 <= m < n < |after| ensures FirstBefore(rows + [row], after[m].id, after[n].id) {
      if n == |kept| { NewComesLast(rows, row, kept[m].id); }
    }
  }

  lemma ReplacedInOrder(kept: seq<Row>, rows: seq<Row>, at: nat, row: Row)
    requires InOrder(kept, rows) && at < |kept| && kept[at].id == row.id
    ensures InOrder(kept[at := row], rows)
  {
    hide FirstBefore;
    var after := kept[at := row];
    forall m, n | 0 <= m < n < |after| ensures FirstBefore(rows, after[m].id, after[n].id) {
      assert after[m].id == kept[m].id && after[n].id == kept[n].id;
    }
  }

  lemma MissingThere(kept: seq<Row>, rows: seq<Row>, id: string)
    requires KeepsBest(kept, rows) && !HasId(kept, id)
    ensures !HasId(rows, id)
  {
    hide DistinctIds, FirstBest;
    forall i | 0 <= i < |rows| ensures rows[i].id != id { assert HasId(kept, rows[i].id); }
  }

  /** Merging keeps the rows in the order in which their ids first appear. */
  lemma {:induction false} MergedInOrder(rows: seq<Row>)
    ensures InOrder(Merge(rows), rows)
  {
    if rows != [] {
      var front, last := rows[..|rows| - 1], rows[|rows| - 1];
      var kept := Merge(front);
      var at := Position(kept, last.id);
      MergedInOrder(front);
      MergedHave(front);
      MergeKeepsBest(front);
      PositionIs(kept, last.id);
      assert rows == front + [last] && Merge(rows) == Put(kept, last);
      hide Merge, HasId, InOrder, AllIn, KeepsBest, Position;
      if at >= |kept| {
        MissingThere(kept, front, last.id);
        AddedInOrder(kept, front, last);
      } else {
        StaysInOrder(kept, front, last);
        ReplacedInOrder(kept, rows, at, last);
      }
    }
  }

  /** Rows of equal score stand in the ranking in the order in which their ids first come. */
  lemma EqualScoresInOrder(sources: seq<Source>, score: real)
    ensures var returned := Tagged(sources);
            InOrder(WithScore(Ranked(Merge(returned)), score), returned)
  {
    var returned := Tagged(sources);
    MergedInOrder(returned);
    RankingIsStable(Merge(returned), score);
    hide Merge, Ranked, Tagged;
    WithScoreInOrder(Merge(returned), returned, score);
  }

  lemma {:induction false} WithScoreInOrder(kept: seq<Row>, rows: seq<Row>, score: real)
    requires InOrder(kept, rows)
    ensures InOrder(WithScore(kept, score), rows)
    ensures forall r :: r in WithScore(kept, score) ==> r in kept
  {
    hide FirstBefore;
    if kept != [] {
      var front, last := kept[..|kept| - 1], kept[|kept| - 1];
      WithScoreInOrder(front, rows, score);
      var before := WithScore(front, score);
      assert kept == front + [last];
      hide WithScore;
      if last.score == score {
        forall m | 0 <= m < |before| ensures FirstBefore(rows, before[m].id, last.id) {
          assert before[m] in front;
          var i :| 0 <= i < |front| && front[i] == before[m];
          assert FirstBefore(rows, kept[i].id, kept[|front|].id);
        }
        OneMoreInOrder(before, rows, last);
      } else {
        assert before + [] == before;
      }
      WithScorePut(front, last, score);
    }
  }

  lemma OneMoreInOrder(kept: seq<Row>, rows: seq<Row>, row: Row)
    requires InOrder(kept, rows) && forall m :: 0 <= m < |kept| ==> FirstBefore(rows, kept[m].id, row.id)
    ensures InOrder(kept + [row], rows)
  {
    hide FirstBefore;
  }
}
