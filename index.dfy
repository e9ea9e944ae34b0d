/** The paper index of both sketches: `parsePapers` turns the rows of
    papers.csv into `papersById`, `buildChildrenMap` turns the rows of
    edges.csv into `childrenMap` (cited id -> citing papers), and
    `buildMainGalaxy` / `buildSubGalaxy` pick the rows a galaxy is built from. */
module CitationIndex {
  import opened Common
  import opened YearParse

  /** One row of papers.csv as `getString` returns it (a missing cell reads as ""). */
  datatype PaperRow = PaperRow(id: string, title: string, year: string, discipline: string, morphType: string)

  /** One row of edges.csv. */
  datatype EdgeRow = EdgeRow(citedId: string, citingId: string)

  /** The record `parsePapers` stores for a row whose year parses. */
  datatype Paper = Paper(id: string, title: string, year: int, disciplineRaw: string, morphRaw: string)

  /** `papersById`: the map itself and the order in which its keys were
      first inserted (the order `for (pid in papersById)` visits them). */
  datatype PaperIndex = PaperIndex(byId: map<string, Paper>, order: seq<string>)

  const EMPTY_INDEX := PaperIndex(map[], [])

  /** Every key is listed once in `order`, and every record is filed under its own id. */
  ghost predicate IndexValid(ix: PaperIndex) {
    && (forall i, j :: 0 <= i < j < |ix.order| ==> ix.order[i] != ix.order[j])
    && (forall k :: k in ix.byId <==> k in ix.order)
    && (forall k :: k in ix.byId ==> ix.byId[k].id == k)
  }

  /** The record built for one row, or None when its year is NaN and the row is skipped. */
  function ParseRow(r: PaperRow): (p: Option<Paper>)
    ensures p.Some? <==> ParseYear(r.year).Some?
    ensures p.Some? ==> p.value.id == r.id && p.value.year == ParseYear(r.year).value
  {
    match ParseYear(r.year)
    case None => None
    case Some(y) => Some(Paper(r.id, r.title, y, r.discipline, r.morphType))
  }

  /** `papersById[pid] = {...}`: an existing key is overwritten in place and
      keeps its position; a new key goes last. */
  function Put(ix: PaperIndex, p: Paper): (r: PaperIndex)
    ensures r.byId == ix.byId[p.id := p]
    ensures p.id in ix.byId ==> r.order == ix.order
    ensures p.id !in ix.byId ==> r.order == ix.order + [p.id]
  {
    if p.id in ix.byId then PaperIndex(ix.byId[p.id := p], ix.order)
    else PaperIndex(ix.byId[p.id := p], ix.order + [p.id])
  }

  /** The record of every row, in row order. */
  function ParseAll(rows: seq<PaperRow>): (recs: seq<Option<Paper>>)
    ensures |recs| == |rows|
    ensures forall i :: 0 <= i < |rows| ==> recs[i] == ParseRow(rows[i])
  {
    seq(|rows|, i requires 0 <= i < |rows| => ParseRow(rows[i]))
  }

  /** The left fold of the parse loop over the rows' records: a skipped row
      leaves the index as it is. */
  function Collect(recs: seq<Option<Paper>>): PaperIndex
  {
    if recs == [] then EMPTY_INDEX
    else
      var ix := Collect(recs[..|recs| - 1]);
      match recs[|recs| - 1]
      case None => ix
      case Some(p) => Put(ix, p)
  }

  /** The value of `papersById` after `parsePapers`. */
  function IndexOf(rows: seq<PaperRow>): PaperIndex {
    Collect(ParseAll(rows))
  }

  /** `parsePapers()`. */
  method ParsePapers(rows: seq<PaperRow>) returns (ix: PaperIndex)
    ensures ix == IndexOf(rows)
  {
    ghost var recs := ParseAll(rows);
    ix := EMPTY_INDEX;
    var r := 0;
    while r < |rows|
      invariant 0 <= r <= |rows|
      invariant ix == Collect(recs[..r])
    {
      assert recs[..r + 1][..r] == recs[..r];
      var parsed := ParseRow(rows[r]);
      if parsed.Some? {
        ix := Put(ix, parsed.value);
      }
      r := r + 1;
    }
    assert recs[..|rows|] == recs;
  }

  /** The parse loop keeps the index well formed. */
  lemma {:induction false} CollectValid(recs: seq<Option<Paper>>)
    ensures IndexValid(Collect(recs))
  {
    if recs != [] {
      var ix := Collect(recs[..|recs| - 1]);
      CollectValid(recs[..|recs| - 1]);
      match recs[|recs| - 1]
      case None =>
      case Some(p) =>
        var r := Put(ix, p);
        if p.id !in ix.byId {
          assert forall k :: k in r.order <==> k in ix.order || k == p.id;
        }
    }
  }

  /** Record i is present and filed under id. */
  ghost predicate FiledAt(recs: seq<Option<Paper>>, i: int, id: string) {
    0 <= i < |recs| && recs[i].Some? && recs[i].value.id == id
  }

  /** A key is present exactly when some record carries that id. */
  lemma {:induction false} CollectKeys(recs: seq<Option<Paper>>, id: string)
    ensures id in Collect(recs).byId <==> exists i :: FiledAt(recs, i, id)
  {
    if recs != [] {
      var n := |recs| - 1;
      var front := recs[..n];
      CollectKeys(front, id);
      if !FiledAt(recs, n, id) {
        if exists i :: FiledAt(recs, i, id) {
          var i :| FiledAt(recs, i, id);
          assert front[i] == recs[i] && FiledAt(front, i, id);
        }
        if exists i :: FiledAt(front, i, id) {
          var i :| FiledAt(front, i, id);
          assert front[i] == recs[i] && FiledAt(recs, i, id);
        }
      }
    }
  }

  /** A present key holds the LAST record carrying that id: later records
      overwrite earlier ones. */
  lemma {:induction false} CollectLastWins(recs: seq<Option<Paper>>, id: string)
    requires id in Collect(recs).byId
    ensures exists i :: FiledAt(recs, i, id) && recs[i].value == Collect(recs).byId[id] &&
                        forall j :: i < j < |recs| ==> !FiledAt(recs, j, id)
  {
    var n := |recs| - 1;
    if FiledAt(recs, n, id) {
      assert recs[n].value == Collect(recs).byId[id];
    } else {
      var front := recs[..n];
      assert Collect(recs).byId == Collect(front).byId || recs[n].Some?;
      assert id in Collect(front).byId && Collect(recs).byId[id] == Collect(front).byId[id];
      CollectLastWins(front, id);
      var i :| FiledAt(front, i, id) && front[i].value == Collect(front).byId[id] &&
               forall j :: i < j < |front| ==> !FiledAt(front, j, id);
      assert front[i] == recs[i];
      forall j | i < j < |recs|
        ensures !FiledAt(recs, j, id)
      {
        if j < n {
          assert front[j] == recs[j];
        }
      }
      assert FiledAt(recs, i, id) && recs[i].value == Collect(recs).byId[id];
    }
  }

  /** `papersById` after `parsePapers` is well formed; it holds a key exactly
      when some row with that id has a parsable year; and the key holds the
      record of the last such row. */
  lemma IndexOfSpec(rows: seq<PaperRow>, id: string)
    ensures IndexValid(IndexOf(rows))
    ensures id in IndexOf(rows).byId <==>
              exists i :: 0 <= i < |rows| && rows[i].id == id && ParseYear(rows[i].year).Some?
    ensures id in IndexOf(rows).byId ==>
              exists i :: 0 <= i < |rows| && rows[i].id == id && ParseRow(rows[i]) == Some(IndexOf(rows).byId[id]) &&
                          forall j :: i < j < |rows| && rows[j].id == id ==> ParseYear(rows[j].year).None?
  {
    var recs := ParseAll(rows);
    CollectValid(recs);
    CollectKeys(recs, id);
    if id in IndexOf(rows).byId {
      CollectLastWins(recs, id);
      var i :| FiledAt(recs, i, id) && recs[i].value == Collect(recs).byId[id] &&
               forall j :: i < j < |recs| ==> !FiledAt(recs, j, id);
      assert rows[i].id == id && ParseRow(rows[i]) == Some(IndexOf(rows).byId[id]);
      forall j | i < j < |rows| && rows[j].id == id
        ensures ParseYear(rows[j].year).None?
      {
        assert !FiledAt(recs, j, id);
      }
    } else {
      forall i | 0 <= i < |rows| && rows[i].id == id
        ensures ParseYear(rows[i].year).None?
      {
        assert !FiledAt(recs, i, id);
      }
    }
  }

  /** `childrenMap`: cited id -> the papers citing it, in edge order. */
  type ChildrenMap = map<string, seq<Paper>>

  /** An edge survives `buildChildrenMap` when both ids are non-empty and known. */
  predicate EdgeKept(e: EdgeRow, ix: PaperIndex) {
    e.citedId != "" && e.citingId != "" && e.citedId in ix.byId && e.citingId in ix.byId
  }

  /** Reference definition: the citing papers of `cited`, one per surviving
      edge, in edge order, duplicates included. */
  function CitersOf(edges: seq<EdgeRow>, ix: PaperIndex, cited: string): seq<Paper>
  {
    if edges == [] then []
    else
      var e := edges[|edges| - 1];
      CitersOf(edges[..|edges| - 1], ix, cited) +
        (if EdgeKept(e, ix) && e.citedId == cited then [ix.byId[e.citingId]] else [])
  }

  /** `buildChildrenMap()`: only cited ids with at least one surviving edge
      get an entry, and every entry lists exactly the citers of that id. */
  method BuildChildrenMap(edges: seq<EdgeRow>, ix: PaperIndex) returns (children: ChildrenMap)
    ensures forall id :: id in children <==> CitersOf(edges, ix, id) != []
    ensures forall id :: id in children ==> children[id] == CitersOf(edges, ix, id)
  {
    children := map[];
    var r := 0;
    while r < |edges|
      invariant 0 <= r <= |edges|
      invariant forall id :: id in children <==> CitersOf(edges[..r], ix, id) != []
      invariant forall id :: id in children ==> children[id] == CitersOf(edges[..r], ix, id)
    {
      assert edges[..r + 1][..r] == edges[..r];
      var e := edges[r];
      if EdgeKept(e, ix) {
        var citing := ix.byId[e.citingId];
        if e.citedId !in children {
          children := children[e.citedId := []];
        }
        children := children[e.citedId := children[e.citedId] + [citing]];
      }
      r := r + 1;
    }
    assert edges[..|edges|] == edges;
  }

  /** A paper is listed under `cited` exactly when some surviving edge from
      it cites `cited`. */
  lemma {:induction false} CitersOfMembers(edges: seq<EdgeRow>, ix: PaperIndex, cited: string, p: Paper)
    ensures p in CitersOf(edges, ix, cited) <==>
              exists i :: 0 <= i < |edges| && EdgeKept(edges[i], ix) && edges[i].citedId == cited &&
                          ix.byId[edges[i].citingId] == p
  {
    if edges != [] {
      var n := |edges| - 1;
      CitersOfMembers(edges[..n], ix, cited, p);
      assert forall i :: 0 <= i < n ==> edges[..n][i] == edges[i];
    }
  }

  /** `hasChildren` of a planet: its id has a non-empty entry. */
  predicate HasChildren(children: ChildrenMap, id: string) {
    id in children && |children[id]| > 0
  }

  /** `childrenMap[aid] || []`: the rows of a sub-galaxy; they are non-empty
      exactly when the paper has children. */
  function SubRows(children: ChildrenMap, aid: string): (rows: seq<Paper>)
    ensures |rows| > 0 <==> HasChildren(children, aid)
    ensures aid !in children ==> rows == []
  {
    if aid in children then children[aid] else []
  }

  /** The core label of a sub-galaxy: the paper's title, or its id when unknown. */
  function SubLabel(ix: PaperIndex, aid: string): string {
    if aid in ix.byId then ix.byId[aid].title else aid
  }

  /** `pid.startsWith("A")`. */
  predicate StartsWithA(k: string) {
    |k| > 0 && k[0] == 'A'
  }

  /** The rows of the main galaxy: the records whose key starts with "A", in key order. */
  function MainRowsOf(byId: map<string, Paper>, keys: seq<string>): (rows: seq<Paper>)
    requires forall k :: k in keys ==> k in byId
    ensures |rows| <= |keys|
    ensures forall p :: p in rows <==> exists k :: k in keys && StartsWithA(k) && byId[k] == p
  {
    if keys == [] then []
    else
      var rest := MainRowsOf(byId, keys[1..]);
      assert forall k :: k in keys[1..] ==> k in keys;
      if StartsWithA(keys[0]) then [byId[keys[0]]] + rest else rest
  }

  /** The row-collecting loop of `buildMainGalaxy`. */
  method MainRows(ix: PaperIndex) returns (rows: seq<Paper>)
    requires IndexValid(ix)
    ensures rows == MainRowsOf(ix.byId, ix.order)
  {
    rows := [];
    var i := 0;
    while i < |ix.order|
      invariant 0 <= i <= |ix.order|
      invariant rows + MainRowsOf(ix.byId, ix.order[i..]) == MainRowsOf(ix.byId, ix.order)
    {
      var pid := ix.order[i];
      MainRowsOfStep(ix.byId, ix.order, i);
      if StartsWithA(pid) {
        assert rows + [ix.byId[pid]] + MainRowsOf(ix.byId, ix.order[i + 1..])
               == rows + ([ix.byId[pid]] + MainRowsOf(ix.byId, ix.order[i + 1..]));
        rows := rows + [ix.byId[pid]];
      }
      i := i + 1;
    }
  }

  /** One key of the loop: the rows of `keys[i..]` are key i's row, if any,
      then the rows of `keys[i + 1..]`. */
  lemma MainRowsOfStep(byId: map<string, Paper>, keys: seq<string>, i: int)
    requires forall k :: k in keys ==> k in byId
    requires 0 <= i < |keys|
    ensures forall k :: k in keys[i..] ==> k in byId
    ensures MainRowsOf(byId, keys[i..])
            == (if StartsWithA(keys[i]) then [byId[keys[i]]] else []) + MainRowsOf(byId, keys[i + 1..])
  {
    assert keys[i..][1..] == keys[i + 1..];
  }
}
