/**
 The account export (internal/storage/export_repo.go): an ordered left join of collections and
 colors, and the loop that folds its rows back into groups by comparing each with the last group.
 */
module Export {
  import opened Text

  /** `createdAt` is an instant; `id` orders as uuids do. */
  datatype Clt = Clt(id: nat, createdAt: int, name: string, isDefault: bool)
  datatype Color = Color(hex: string, createdAt: int)

  /** One row of the join; the color is null for a collection that holds none. */
  datatype JoinRow = JoinRow(clt: Clt, color: Option<Color>)
  datatype Group = Group(clt: Clt, colors: seq<Color>)

  // ---- the query ----

  predicate CltLess(a: Clt, b: Clt) {
    a.createdAt < b.createdAt || (a.createdAt == b.createdAt && a.id < b.id)
  }

  predicate ColorLess(a: Color, b: Color) {
    a.createdAt < b.createdAt || (a.createdAt == b.createdAt && Less(a.hex, b.hex))
  }

  /** ORDER BY c.created_at, c.id, cc.created_at, cc.hex */
  predicate RowLess(a: JoinRow, b: JoinRow) {
    || CltLess(a.clt, b.clt)
    || (!CltLess(b.clt, a.clt) && a.color.Some? && b.color.Some? && ColorLess(a.color.value, b.color.value))
  }

  /** `rows` is the left join of `clts` with `colors`, each row once, in the order asked for. */
  ghost predicate IsLeftJoin(rows: seq<JoinRow>, clts: set<Clt>, colors: map<nat, set<Color>>) {
    && (forall a, b | a in clts && b in clts && a.id == b.id :: a == b)
    && (forall c | c in clts :: c.id in colors)
    && (forall r :: r in rows <==>
          r.clt in clts && (if r.color.Some? then r.color.value in colors[r.clt.id] else colors[r.clt.id] == {}))
    && (forall i, j | 0 <= i < j < |rows| :: rows[i] != rows[j])
    && (forall i, j | 0 <= i < j < |rows| :: !RowLess(rows[j], rows[i]))
  }

  // ---- the fold ----

  /** What one row does to the groups built so far. */
  function AddRow(out: seq<Group>, row: JoinRow): (r: seq<Group>)
    ensures r != []
  {
    var grown :=
      if out == [] || out[|out| - 1].clt.id != row.clt.id then out + [Group(row.clt, [])] else out;
    var last := |grown| - 1;
    match row.color
    case None => grown
    case Some(color) => grown[last := grown[last].(colors := grown[last].colors + [color])]
  }

  function Fold(rows: seq<JoinRow>): seq<Group> {
    if rows == [] then [] else AddRow(Fold(rows[..|rows| - 1]), rows[|rows| - 1])
  }

  /** The loop of ExportCollections: it appends groups, and colors to the last group in place. */
  method ExportCollections(rows: seq<JoinRow>) returns (out: seq<Group>)
    ensures out == Fold(rows)
  {
    out := [];
    for i := 0 to |rows|
      invariant out == Fold(rows[..i])
    {
      var row := rows[i];
      assert rows[..i + 1][..i] == rows[..i];
      if out == [] || out[|out| - 1].clt.id != row.clt.id {
        out := out + [Group(row.clt, [])];
      }
      if row.color.None? { continue; }
      var current := out[|out| - 1];
      out := out[|out| - 1 := current.(colors := current.colors + [row.color.value])];
    }
    assert rows[..|rows|] == rows;
  }

  // ---- flattening ----

  function GroupRows(g: Group): (rows: seq<JoinRow>)
    ensures rows != []
  {
    if g.colors == [] then [JoinRow(g.clt, None)]
    else seq(|g.colors|, i requires 0 <= i < |g.colors| => JoinRow(g.clt, Some(g.colors[i])))
  }

  function Flatten(groups: seq<Group>): seq<JoinRow> {
    if groups == [] then [] else Flatten(groups[..|groups| - 1]) + GroupRows(groups[|groups| - 1])
  }

  ghost predicate InSome(groups: seq<Group>, r: JoinRow) {
    exists i :: 0 <= i < |groups| && r in GroupRows(groups[i])
  }

  lemma {:induction false} FlattenMembers(groups: seq<Group>, r: JoinRow)
    ensures r in Flatten(groups) <==> InSome(groups, r)
  {
    if groups != [] {
      FlattenMembers(groups[..|groups| - 1], r);
      InSomeOrLast(groups, groups[..|groups| - 1], r);
    }
  }

  lemma {:induction false} InSomeOrLast(groups: seq<Group>, init: seq<Group>, r: JoinRow)
    requires groups != [] && init == groups[..|groups| - 1]
    ensures InSome(groups, r) <==> InSome(init, r) || r in GroupRows(groups[|groups| - 1])
  {
    if i :| 0 <= i < |groups| && r in GroupRows(groups[i]) {
      assert i < |init| ==> r in GroupRows(init[i]);
    }
    if i :| 0 <= i < |init| && r in GroupRows(init[i]) {
      assert r in GroupRows(groups[i]);
    }
  }

  lemma {:induction false} FlattenGrows(groups: seq<Group>, g: Group)
    ensures Flatten(groups + [g]) == Flatten(groups) + GroupRows(g)
  {
    assert (groups + [g])[..|groups|] == groups;
  }

  // ---- what the order of the query is good for ----

  /** What the fold needs of its rows; every prefix of such rows is such rows. */
  ghost predicate Grouped(rows: seq<JoinRow>) {
    && (forall i, j | 0 <= i < j < |rows| :: RowLess(rows[i], rows[j]))
    && (forall i, j | 0 <= i < j < |rows| && rows[i].clt.id == rows[j].clt.id ::
          rows[i].clt == rows[j].clt && rows[i].color.Some? && rows[j].color.Some?)
  }

  lemma {:induction false} RowOrderIsTotal(
      rows: seq<JoinRow>, clts: set<Clt>, colors: map<nat, set<Color>>, i: nat, j: nat)
    requires IsLeftJoin(rows, clts, colors) && i < j < |rows|
    ensures RowLess(rows[i], rows[j])
    ensures rows[i].clt.id == rows[j].clt.id ==>
              rows[i].clt == rows[j].clt && rows[i].color.Some? && rows[j].color.Some?
  {
    var a, b := rows[i], rows[j];
    assert a in rows && b in rows;
    assert a != b && !RowLess(b, a);
    if a.clt.id == b.clt.id {
      assert a.clt == b.clt;
      LessTrichotomy(a.color.value.hex, b.color.value.hex);
    }
  }

  lemma {:induction false} LeftJoinIsGrouped(rows: seq<JoinRow>, clts: set<Clt>, colors: map<nat, set<Color>>)
    requires IsLeftJoin(rows, clts, colors)
    ensures Grouped(rows)
  {
    forall i, j | 0 <= i < j < |rows|
      ensures RowLess(rows[i], rows[j])
      ensures rows[i].clt.id == rows[j].clt.id ==>
                rows[i].clt == rows[j].clt && rows[i].color.Some? && rows[j].color.Some?
    {
      RowOrderIsTotal(rows, clts, colors, i, j);
    }
  }

  ghost predicate GroupsOrdered(groups: seq<Group>) {
    forall i, j | 0 <= i < j < |groups| :: CltLess(groups[i].clt, groups[j].clt)
  }

  ghost predicate ColorsOrdered(colors: seq<Color>) {
    forall i, j | 0 <= i < j < |colors| :: ColorLess(colors[i], colors[j])
  }

  /** The last row so far belongs to the last group. */
  lemma {:induction false} LastRowOfGroups(groups: seq<Group>, rows: seq<JoinRow>)
    requires groups != [] && Flatten(groups) == rows
    ensures rows != [] && rows[|rows| - 1].clt == groups[|groups| - 1].clt
    ensures var g := groups[|groups| - 1];
            rows[|rows| - 1].color == if g.colors == [] then None else Some(g.colors[|g.colors| - 1])
  {
    var g := groups[|groups| - 1];
    assert rows[|rows| - 1] == GroupRows(g)[|GroupRows(g)| - 1];
  }

  /** AddRow opens a group, or extends the last. */
  lemma {:induction false} AddRowCases(out: seq<Group>, row: JoinRow)
    ensures out == [] || out[|out| - 1].clt.id != row.clt.id ==>
              AddRow(out, row) == out + [Group(row.clt, if row.color.Some? then [row.color.value] else [])]
    ensures out != [] && out[|out| - 1].clt.id == row.clt.id && row.color.Some? ==>
              AddRow(out, row) == out[..|out| - 1] + [Extended(out[|out| - 1], row.color.value)]
  {
    var opens := out == [] || out[|out| - 1].clt.id != row.clt.id;
    if opens && row.color.Some? {
      assert Extended(Group(row.clt, []), row.color.value) == Group(row.clt, [row.color.value]);
      assert AddRow(out, row) == out + [Group(row.clt, [row.color.value])];
    } else if row.color.Some? {
      assert AddRow(out, row) == out[..|out| - 1] + [Extended(out[|out| - 1], row.color.value)];
    }
  }

  function Extended(g: Group, color: Color): Group {
    g.(colors := g.colors + [color])
  }

  /** A row of a collection not seen yet opens a group behind all others. */
  lemma {:induction false} OpenGroup(out: seq<Group>, rows: seq<JoinRow>, row: JoinRow)
    requires Flatten(out) == rows && Grouped(rows + [row]) && GroupsOrdered(out)
    requires out == [] || out[|out| - 1].clt.id != row.clt.id
    ensures Flatten(AddRow(out, row)) == rows + [row] && GroupsOrdered(AddRow(out, row))
  {
    var g := Group(row.clt, if row.color.Some? then [row.color.value] else []);
    AddRowCases(out, row);
    FlattenGrows(out, g);
    assert GroupRows(g) == [row];
    if out != [] { OpensBehind(out, rows, row); }
    OrderedWith(out, g);
  }

  lemma {:induction false} OrderedWith(out: seq<Group>, g: Group)
    requires GroupsOrdered(out) && (out == [] || CltLess(out[|out| - 1].clt, g.clt))
    ensures GroupsOrdered(out + [g])
  {}

  lemma {:induction false} OpensBehind(out: seq<Group>, rows: seq<JoinRow>, row: JoinRow)
    requires out != [] && Flatten(out) == rows && Grouped(rows + [row])
    requires out[|out| - 1].clt.id != row.clt.id
    ensures CltLess(out[|out| - 1].clt, row.clt)
  {
    LastRowOfGroups(out, rows);
    assert RowLess((rows + [row])[|rows| - 1], (rows + [row])[|rows|]);
  }

  /** A row of the last collection extends its group. */
  lemma {:induction false} ExtendGroup(out: seq<Group>, rows: seq<JoinRow>, row: JoinRow)
    requires Flatten(out) == rows && Grouped(rows + [row])
    requires out != [] && out[|out| - 1].clt.id == row.clt.id
    ensures var g := out[|out| - 1];
            && row.clt == g.clt && row.color.Some? && g.colors != []
            && ColorLess(g.colors[|g.colors| - 1], row.color.value)
            && Flatten(AddRow(out, row)) == rows + [row]
  {
    LastRowOfGroups(out, rows);
    NextOfGroup(out[|out| - 1], rows, row);
    FlattenExtended(out, row);
  }

  lemma {:induction false} NextOfGroup(g: Group, rows: seq<JoinRow>, row: JoinRow)
    requires rows != [] && Grouped(rows + [row]) && g.clt.id == row.clt.id
    requires rows[|rows| - 1].clt == g.clt
    requires rows[|rows| - 1].color == if g.colors == [] then None else Some(g.colors[|g.colors| - 1])
    ensures row.clt == g.clt && row.color.Some? && g.colors != []
    ensures ColorLess(g.colors[|g.colors| - 1], row.color.value)
  {
    var next := rows + [row];
    assert next[|rows| - 1] == rows[|rows| - 1] && next[|rows|] == row;
    assert RowLess(next[|rows| - 1], next[|rows|]);
  }

  lemma {:induction false} FlattenExtended(out: seq<Group>, row: JoinRow)
    requires out != [] && out[|out| - 1].clt == row.clt && row.color.Some? && out[|out| - 1].colors != []
    ensures Flatten(AddRow(out, row)) == Flatten(out) + [row]
  {
    var n := |out| - 1;
    var g := out[n];
    var g' := Extended(g, row.color.value);
    AddRowCases(out, row);
    FlattenGrows(out[..n], g');
    assert GroupRows(g') == GroupRows(g) + [row];
  }

  lemma {:induction false} ExtendedOrdered(colors: seq<Color>, color: Color)
    requires ColorsOrdered(colors) && colors != [] && ColorLess(colors[|colors| - 1], color)
    ensures ColorsOrdered(colors + [color])
  {
    forall i | 0 <= i < |colors| ensures ColorLess(colors[i], color) {
      ColorLessThrough(colors[i], colors[|colors| - 1], color);
    }
  }

  lemma {:induction false} ColorLessThrough(a: Color, b: Color, c: Color)
    requires (a == b || ColorLess(a, b)) && ColorLess(b, c)
    ensures ColorLess(a, c)
  {
    if a != b && a.createdAt == b.createdAt == c.createdAt { LessTransitive(a.hex, b.hex, c.hex); }
  }

  ghost predicate EachOrdered(groups: seq<Group>) {
    forall i | 0 <= i < |groups| :: ColorsOrdered(groups[i].colors)
  }

  lemma {:induction false} AddRowKeeps(out: seq<Group>, rows: seq<JoinRow>, row: JoinRow)
    requires Flatten(out) == rows && Grouped(rows + [row]) && GroupsOrdered(out) && EachOrdered(out)
    ensures var out' := AddRow(out, row);
            Flatten(out') == rows + [row] && GroupsOrdered(out') && EachOrdered(out')
  {
    if out == [] || out[|out| - 1].clt.id != row.clt.id {
      OpenGroup(out, rows, row);
      OpenedKeeps(out, row);
    } else {
      ExtendGroup(out, rows, row);
      ExtendedKeeps(out, row);
    }
  }

  lemma {:induction false} OpenedKeeps(out: seq<Group>, row: JoinRow)
    requires EachOrdered(out) && (out == [] || out[|out| - 1].clt.id != row.clt.id)
    ensures EachOrdered(AddRow(out, row))
  {
    AddRowCases(out, row);
  }

  lemma {:induction false} ExtendedKeeps(out: seq<Group>, row: JoinRow)
    requires GroupsOrdered(out) && EachOrdered(out)
    requires out != [] && out[|out| - 1].clt.id == row.clt.id && row.color.Some?
    requires var g := out[|out| - 1];
             g.colors != [] && ColorLess(g.colors[|g.colors| - 1], row.color.value)
    ensures GroupsOrdered(AddRow(out, row)) && EachOrdered(AddRow(out, row))
  {
    var g := out[|out| - 1];
    AddRowCases(out, row);
    ExtendedOrdered(g.colors, row.color.value);
    LastReplaced(out, Extended(g, row.color.value));
  }

  lemma {:induction false} LastReplaced(out: seq<Group>, g: Group)
    requires GroupsOrdered(out) && EachOrdered(out) && out != []
    requires g.clt == out[|out| - 1].clt && ColorsOrdered(g.colors)
    ensures GroupsOrdered(out[..|out| - 1] + [g]) && EachOrdered(out[..|out| - 1] + [g])
  {}

  /** The fold undoes the flattening, and its groups and colors keep the order of the rows. */
  lemma {:induction false} FoldGroups(rows: seq<JoinRow>)
    requires Grouped(rows)
    ensures Flatten(Fold(rows)) == rows && GroupsOrdered(Fold(rows)) && EachOrdered(Fold(rows))
  {
    if rows != [] {
      var init, row := rows[..|rows| - 1], rows[|rows| - 1];
      assert init + [row] == rows;
      FoldGroups(init);
      AddRowKeeps(Fold(init), init, row);
    }
  }

  /** Which rows a group of an ordered list accounts for. */
  lemma {:induction false} GroupOwnsRows(groups: seq<Group>, i: nat, color: Color)
    requires i < |groups| && GroupsOrdered(groups)
    ensures color in groups[i].colors <==> JoinRow(groups[i].clt, Some(color)) in Flatten(groups)
  {
    var r := JoinRow(groups[i].clt, Some(color));
    FlattenMembers(groups, r);
    if color in groups[i].colors {
      var k :| 0 <= k < |groups[i].colors| && groups[i].colors[k] == color;
      assert GroupRows(groups[i])[k] == r;
    }
    if r in Flatten(groups) {
      var j :| 0 <= j < |groups| && r in GroupRows(groups[j]);
      assert groups[j].clt == groups[i].clt;
      assert !CltLess(groups[i].clt, groups[j].clt);
      assert i == j;
    }
  }

  lemma {:induction false} GroupIsListed(groups: seq<Group>, i: nat)
    requires i < |groups|
    ensures exists r :: r in Flatten(groups) && r.clt == groups[i].clt
  {
    var r := GroupRows(groups[i])[0];
    FlattenMembers(groups, r);
  }

  lemma {:induction false} RowHasGroup(groups: seq<Group>, r: JoinRow)
    requires r in Flatten(groups)
    ensures exists i :: 0 <= i < |groups| && groups[i].clt == r.clt
  {
    FlattenMembers(groups, r);
    var i :| 0 <= i < |groups| && r in GroupRows(groups[i]);
    assert groups[i].clt == r.clt;
  }

  /** The export names a collection if and only if the account has it. */
  lemma {:induction false} CollectionsExported(rows: seq<JoinRow>, clts: set<Clt>, colors: map<nat, set<Color>>, c: Clt)
    requires IsLeftJoin(rows, clts, colors)
    ensures c in clts <==> exists i :: 0 <= i < |Fold(rows)| && Fold(rows)[i].clt == c
  {
    var groups := Fold(rows);
    LeftJoinIsGrouped(rows, clts, colors);
    FoldGroups(rows);
    if i :| 0 <= i < |groups| && groups[i].clt == c {
      GroupIsListed(groups, i);
    }
    if c in clts {
      CollectionHasRow(rows, clts, colors, c);
      var r :| r in rows && r.clt == c;
      RowHasGroup(groups, r);
    }
  }

  /** A group holds a color if and only if the collection does. */
  lemma {:induction false} ColorsExported(
      rows: seq<JoinRow>, clts: set<Clt>, colors: map<nat, set<Color>>, i: nat, x: Color)
    requires IsLeftJoin(rows, clts, colors) && i < |Fold(rows)|
    ensures var g := Fold(rows)[i];
            g.clt in clts && (x in g.colors <==> x in colors[g.clt.id])
  {
    CollectionsExported(rows, clts, colors, Fold(rows)[i].clt);
    LeftJoinIsGrouped(rows, clts, colors);
    FoldGroups(rows);
    GroupOwnsRows(Fold(rows), i, x);
  }

  /**
   The export of an account: every collection exactly once in (created_at, id) order, the empty ones
   too, each with exactly its colors in (created_at, hex) order; and flattening gives the rows back.
   */
  lemma {:induction false} ExportIsTheAccount(rows: seq<JoinRow>, clts: set<Clt>, colors: map<nat, set<Color>>)
    requires IsLeftJoin(rows, clts, colors)
    ensures Flatten(Fold(rows)) == rows
    ensures forall c :: c in clts <==> exists i :: 0 <= i < |Fold(rows)| && Fold(rows)[i].clt == c
    ensures forall i, j | 0 <= i < j < |Fold(rows)| :: CltsInOrder(Fold(rows)[i].clt, Fold(rows)[j].clt)
    ensures forall g, i, j | g in Fold(rows) && 0 <= i < j < |g.colors| :: ColorsInOrder(g.colors[i], g.colors[j])
    ensures forall i, x | 0 <= i < |Fold(rows)| ::
              && Fold(rows)[i].clt in clts
              && (x in Fold(rows)[i].colors <==> x in colors[Fold(rows)[i].clt.id])
  {
    LeftJoinIsGrouped(rows, clts, colors);
    FoldGroups(rows);
    forall c ensures c in clts <==> exists i :: 0 <= i < |Fold(rows)| && Fold(rows)[i].clt == c {
      CollectionsExported(rows, clts, colors, c);
    }
    forall i, x | 0 <= i < |Fold(rows)|
      ensures Fold(rows)[i].clt in clts
      ensures x in Fold(rows)[i].colors <==> x in colors[Fold(rows)[i].clt.id]
    {
      ColorsExported(rows, clts, colors, i, x);
    }
    OrderIsByTime(Fold(rows));
  }

  /** Older collections first, and by id among those of one time. */
  predicate CltsInOrder(a: Clt, b: Clt) {
    if a.createdAt == b.createdAt then a.id < b.id else a.createdAt < b.createdAt
  }

  /** Older colors first, and alphabetically among those of one time. */
  ghost predicate ColorsInOrder(a: Color, b: Color) {
    if a.createdAt == b.createdAt then exists n :: DiffersBelow(a.hex, b.hex, n) else a.createdAt < b.createdAt
  }

  lemma {:induction false} OrderIsByTime(groups: seq<Group>)
    requires GroupsOrdered(groups) && EachOrdered(groups)
    ensures forall i, j | 0 <= i < j < |groups| :: CltsInOrder(groups[i].clt, groups[j].clt)
    ensures forall g, i, j | g in groups && 0 <= i < j < |g.colors| :: ColorsInOrder(g.colors[i], g.colors[j])
  {
    forall g, i, j | g in groups && 0 <= i < j < |g.colors| ensures ColorsInOrder(g.colors[i], g.colors[j]) {
      var n :| 0 <= n < |groups| && groups[n] == g;
      assert ColorsOrdered(groups[n].colors);
      LessIsAlphabetical(g.colors[i].hex, g.colors[j].hex);
    }
  }

  /** A left join keeps a row of every collection, with colors or without. */
  lemma {:induction false} CollectionHasRow(rows: seq<JoinRow>, clts: set<Clt>, colors: map<nat, set<Color>>, c: Clt)
    requires IsLeftJoin(rows, clts, colors) && c in clts
    ensures exists r :: r in rows && r.clt == c
  {
    if colors[c.id] == {} {
      assert JoinRow(c, None) in rows;
    } else {
      var x :| x in colors[c.id];
      assert JoinRow(c, Some(x)) in rows;
    }
  }
}
