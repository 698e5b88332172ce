/** The walk over every entry of a blueprint patch: plain rows, inserted rows
    and the nested rows of groups. A visited pointer is kept as its token path;
    `Render` prints it. */
module PatchEntries {
  import opened Basics
  import opened JsonTree
  import opened PointerText
  import opened JsonPointer

  datatype Located = Located(entry: Json, path: seq<string>)

  predicate IsGroup(entry: Json) {
    && Child(entry, "group") == Some(Bool(true))
    && Child(entry, "config").Some? && Child(entry, "config").value.Arr?
  }

  predicate IsNestedEntry(child: Json) {
    child.Obj? && Child(child, "id").Some? && Child(child, "insert").None?
  }

  function VisitEntry(entry: Json, path: seq<string>): seq<Located>
    decreases entry, 0
  {
    [Located(entry, path)] +
    if IsGroup(entry) then VisitNested(Child(entry, "config").value.items, 0, path + ["config"]) else []
  }

  function VisitNested(rows: seq<Json>, from: nat, base: seq<string>): seq<Located>
    requires from <= |rows|
    decreases rows, |rows| - from
  {
    if from == |rows| then []
    else (if IsNestedEntry(rows[from]) then VisitEntry(rows[from], base + [Decimal(from)]) else [])
         + VisitNested(rows, from + 1, base)
  }

  function VisitInserted(rows: seq<Json>, from: nat, base: seq<string>): seq<Located>
    requires from <= |rows|
    decreases |rows| - from
  {
    if from == |rows| then []
    else VisitEntry(rows[from], base + [Decimal(from)]) + VisitInserted(rows, from + 1, base)
  }

  predicate IsInsert(item: Json) {
    Child(item, "insert").Some? && Child(item, "insert").value.Arr?
  }

  function VisitItem(item: Json, path: seq<string>): seq<Located> {
    if IsInsert(item) then VisitInserted(Child(item, "insert").value.items, 0, path + ["insert"])
    else VisitEntry(item, path)
  }

  function VisitItems(items: seq<Json>, from: nat, base: seq<string>): seq<Located>
    requires from <= |items|
    decreases |items| - from
  {
    if from == |items| then []
    else VisitItem(items[from], base + [Decimal(from)]) + VisitItems(items, from + 1, base)
  }

  /** `walkAllPatchEntries`: `base` is the place of the patch itself. */
  function WalkAllPatchEntries(patch: Json, base: seq<string>): seq<Located> {
    if patch.Arr? then VisitItems(patch.items, 0, base) else []
  }

  // ---- an entry is where its path leads, without any walk ----

  /** The entry a path leads to from an entry: through the rows of groups only. */
  function EntryBelow(entry: Json, path: seq<string>): Option<Json>
    decreases |path|
  {
    if path == [] then Some(entry)
    else if |path| == 1 || path[0] != "config" || !IsGroup(entry) then None
    else
      var row := Child(Child(entry, "config").value, path[1]);
      if row.Some? && IsNestedEntry(row.value) then EntryBelow(row.value, path[2..]) else None
  }

  /** The entry a path leads to from an item of the patch: an inserted row, or the item itself. */
  function ItemBelow(item: Json, path: seq<string>): Option<Json> {
    if !IsInsert(item) then EntryBelow(item, path)
    else if |path| < 2 || path[0] != "insert" then None
    else
      var row := Child(Child(item, "insert").value, path[1]);
      if row.Some? then EntryBelow(row.value, path[2..]) else None
  }

  /** The entry a path leads to from the patch. */
  function EntryAt(patch: Json, path: seq<string>): Option<Json> {
    if !patch.Arr? || path == [] then None
    else
      var item := Child(patch, path[0]);
      if item.Some? then ItemBelow(item.value, path[1..]) else None
  }

  /** The listed rows are exactly the entries found below the base: sound... */
  ghost predicate Sound(found: seq<Located>, base: seq<string>, at: seq<string> -> Option<Json>) {
    forall l :: l in found ==> base <= l.path && at(l.path[|base|..]) == Some(l.entry)
  }

  /** ... complete... */
  ghost predicate Complete(found: seq<Located>, base: seq<string>, at: seq<string> -> Option<Json>) {
    forall path :: at(path).Some? ==> Located(at(path).value, base + path) in found
  }

  /** ... and each at one position only. */
  ghost predicate NoRepeats(found: seq<Located>) {
    forall i, j :: 0 <= i < j < |found| ==> found[i].path != found[j].path
  }

  ghost predicate Exact(found: seq<Located>, base: seq<string>, at: seq<string> -> Option<Json>) {
    Sound(found, base, at) && Complete(found, base, at) && NoRepeats(found)
  }

  /** Rows `from..` of a list, each visited by `at` with its index in front. */
  function InRows(length: nat, from: nat, row: (nat, seq<string>) -> Option<Json>, path: seq<string>): Option<Json> {
    if path == [] then None
    else
      var i := ArrayIndex(path[0], length);
      if i.Some? && from <= i.value then row(i.value, path[1..]) else None
  }

  lemma SoundCons(head: seq<Located>, tail: seq<Located>, length: nat, from: nat, base: seq<string>,
                  row: (nat, seq<string>) -> Option<Json>)
    requires from < length
    requires Sound(head, base + [Decimal(from)], path => row(from, path))
    requires Sound(tail, base, path => InRows(length, from + 1, row, path))
    ensures Sound(head + tail, base, path => InRows(length, from, row, path))
  {
    var here := path => row(from, path);
    var later := path => InRows(length, from + 1, row, path);
    var step := Decimal(from);
    ArrayIndexOfDecimal(from, length);
    forall l | l in head + tail
      ensures base <= l.path && InRows(length, from, row, l.path[|base|..]) == Some(l.entry)
    {
      if l in head {
        assert here(l.path[|base + [step]|..]) == Some(l.entry);
        assert l.path[|base|..][0] == step;
        assert l.path[|base|..][1..] == l.path[|base + [step]|..];
      } else {
        assert later(l.path[|base|..]) == Some(l.entry);
      }
    }
  }

  lemma CompleteCons(head: seq<Located>, tail: seq<Located>, length: nat, from: nat, base: seq<string>,
                     row: (nat, seq<string>) -> Option<Json>)
    requires from < length
    requires Complete(head, base + [Decimal(from)], path => row(from, path))
    requires Complete(tail, base, path => InRows(length, from + 1, row, path))
    ensures Complete(head + tail, base, path => InRows(length, from, row, path))
  {
    var here := path => row(from, path);
    var later := path => InRows(length, from + 1, row, path);
    var at := path => InRows(length, from, row, path);
    var step := Decimal(from);
    forall path | at(path).Some?
      ensures Located(at(path).value, base + path) in head + tail
    {
      if ArrayIndex(path[0], length).value == from {
        assert here(path[1..]) == at(path);
        assert base + [step] + path[1..] == base + path;
      } else {
        assert later(path) == at(path);
      }
    }
  }

  /** What a later row lists starts with another index than what row `from` lists. */
  lemma RowsApart(h: Located, t: Located, length: nat, from: nat, base: seq<string>,
                  row: (nat, seq<string>) -> Option<Json>)
    requires from < length && base + [Decimal(from)] <= h.path
    requires base <= t.path && InRows(length, from + 1, row, t.path[|base|..]).Some?
    ensures h.path != t.path
  {
    ArrayIndexOfDecimal(from, length);
    var rest := t.path[|base|..];
    assert rest[0] != Decimal(from) && t.path[|base|] == rest[0];
    assert h.path[|base|] == (base + [Decimal(from)])[|base|];
  }

  lemma NoRepeatsConcat(head: seq<Located>, tail: seq<Located>)
    requires NoRepeats(head) && NoRepeats(tail)
    requires forall i, j :: 0 <= i < |head| && 0 <= j < |tail| ==> head[i].path != tail[j].path
    ensures NoRepeats(head + tail)
  {
  }

  /** One more row in front keeps a listing exact. */
  lemma ExactCons(head: seq<Located>, tail: seq<Located>, length: nat, from: nat, base: seq<string>,
                  row: (nat, seq<string>) -> Option<Json>)
    requires from < length
    requires Exact(head, base + [Decimal(from)], path => row(from, path))
    requires Exact(tail, base, path => InRows(length, from + 1, row, path))
    ensures Exact(head + tail, base, path => InRows(length, from, row, path))
  {
    SoundCons(head, tail, length, from, base, row);
    CompleteCons(head, tail, length, from, base, row);
    var later := path => InRows(length, from + 1, row, path);
    forall i, j | 0 <= i < |head| && 0 <= j < |tail| ensures head[i].path != tail[j].path {
      assert head[i] in head && tail[j] in tail;
      assert later(tail[j].path[|base|..]) == Some(tail[j].entry);
      RowsApart(head[i], tail[j], length, from, base, row);
    }
    NoRepeatsConcat(head, tail);
  }

  lemma ExactNone(length: nat, base: seq<string>, row: (nat, seq<string>) -> Option<Json>)
    ensures Exact([], base, path => InRows(length, length, row, path))
  {
  }

  /** What a listing finds under one more key. */
  function Under(key: string, at: seq<string> -> Option<Json>, path: seq<string>): Option<Json> {
    if path != [] && path[0] == key then at(path[1..]) else None
  }

  lemma ExactUnder(found: seq<Located>, base: seq<string>, key: string, at: seq<string> -> Option<Json>)
    requires Exact(found, base + [key], at)
    ensures Exact(found, base, path => Under(key, at, path))
  {
    forall l | l in found
      ensures base <= l.path && Under(key, at, l.path[|base|..]) == Some(l.entry)
    {
      assert l.path[|base|..][1..] == l.path[|base + [key]|..];
    }
    forall path | Under(key, at, path).Some?
      ensures Located(Under(key, at, path).value, base + path) in found
    {
      assert base + [key] + path[1..] == base + path;
    }
  }

  /** The start of a listing together with everything strictly below it. */
  lemma ExactWithSelf(entry: Json, found: seq<Located>, base: seq<string>, below: seq<string> -> Option<Json>)
    requires Exact(found, base, below) && below([]).None?
    ensures Exact([Located(entry, base)] + found, base, path => if path == [] then Some(entry) else below(path))
  {
    var all := [Located(entry, base)] + found;
    assert base[|base|..] == [] && base + [] == base;
    forall l | l in found
      ensures l.path != base
    {
      assert below(l.path[|base|..]) == Some(l.entry);
    }
    forall i, j | 0 <= i < j < |all|
      ensures all[i].path != all[j].path
    {
      assert all[j] == found[j - 1] && found[j - 1] in found;
    }
  }

  lemma ExactSame(found: seq<Located>, base: seq<string>, f: seq<string> -> Option<Json>, g: seq<string> -> Option<Json>)
    requires Exact(found, base, f) && forall path :: f(path) == g(path)
    ensures Exact(found, base, g)
  {
  }

  lemma {:induction false} VisitEntryExact(entry: Json, base: seq<string>)
    ensures Exact(VisitEntry(entry, base), base, path => EntryBelow(entry, path))
    decreases entry, 0
  {
    var none: seq<string> -> Option<Json> := path => None;
    var nested: seq<Located>, below := [], none;
    if IsGroup(entry) {
      var rows := Child(entry, "config").value.items;
      var inRows := path => InRows(|rows|, 0, NestedRow(rows), path);
      nested := VisitNested(rows, 0, base + ["config"]);
      VisitNestedExact(rows, 0, base + ["config"], NestedRow(rows));
      ExactUnder(nested, base, "config", inRows);
      below := path => Under("config", inRows, path);
      forall path | path != [] ensures EntryBelow(entry, path) == below(path) {
        EntryBelowGroup(entry, path);
      }
    }
    ExactWithSelf(entry, nested, base, below);
    ExactSame([Located(entry, base)] + nested, base,
              path => if path == [] then Some(entry) else below(path), path => EntryBelow(entry, path));
  }

  function NestedRow(rows: seq<Json>): (nat, seq<string>) -> Option<Json> {
    (i: nat, path: seq<string>) => if i < |rows| && IsNestedEntry(rows[i]) then EntryBelow(rows[i], path) else None
  }

  lemma EntryBelowGroup(entry: Json, path: seq<string>)
    requires IsGroup(entry) && path != []
    ensures var rows := Child(entry, "config").value.items;
            EntryBelow(entry, path) == Under("config", p => InRows(|rows|, 0, NestedRow(rows), p), path)
  {
  }

  ghost predicate NestedRows(rows: seq<Json>, row: (nat, seq<string>) -> Option<Json>) {
    forall i: nat, path :: row(i, path) == (
      if i < |rows| && IsNestedEntry(rows[i]) then EntryBelow(rows[i], path) else None)
  }

  function NestedListed(row: Json, path: seq<string>): seq<Located> {
    if IsNestedEntry(row) then VisitEntry(row, path) else []
  }

  lemma NestedListedExact(rows: seq<Json>, from: nat, here: seq<string>, row: (nat, seq<string>) -> Option<Json>)
    requires from < |rows| && NestedRows(rows, row)
    requires Exact(VisitEntry(rows[from], here), here, path => EntryBelow(rows[from], path))
    ensures Exact(NestedListed(rows[from], here), here, path => row(from, path))
  {
    if IsNestedEntry(rows[from]) {
      ExactSame(VisitEntry(rows[from], here), here, path => EntryBelow(rows[from], path), path => row(from, path));
    }
  }

  lemma {:induction false} VisitNestedExact(rows: seq<Json>, from: nat, base: seq<string>,
                                            row: (nat, seq<string>) -> Option<Json>)
    requires from <= |rows|
    requires NestedRows(rows, row)
    ensures Exact(VisitNested(rows, from, base), base, path => InRows(|rows|, from, row, path))
    decreases rows, |rows| - from
  {
    if from == |rows| {
      ExactNone(|rows|, base, row);
    } else {
      var here := base + [Decimal(from)];
      VisitEntryExact(rows[from], here);
      NestedListedExact(rows, from, here, row);
      VisitNestedExact(rows, from + 1, base, row);
      ExactCons(NestedListed(rows[from], here), VisitNested(rows, from + 1, base), |rows|, from, base, row);
    }
  }

  ghost predicate InsertedRows(rows: seq<Json>, row: (nat, seq<string>) -> Option<Json>) {
    forall i: nat, path :: row(i, path) == (if i < |rows| then EntryBelow(rows[i], path) else None)
  }

  lemma {:induction false} VisitInsertedExact(rows: seq<Json>, from: nat, base: seq<string>,
                                              row: (nat, seq<string>) -> Option<Json>)
    requires from <= |rows|
    requires InsertedRows(rows, row)
    ensures Exact(VisitInserted(rows, from, base), base, path => InRows(|rows|, from, row, path))
    decreases |rows| - from
  {
    if from == |rows| {
      ExactNone(|rows|, base, row);
    } else {
      var here := base + [Decimal(from)];
      var head := VisitEntry(rows[from], here);
      VisitEntryExact(rows[from], here);
      ExactSame(head, here, path => EntryBelow(rows[from], path), path => row(from, path));
      VisitInsertedExact(rows, from + 1, base, row);
      ExactCons(head, VisitInserted(rows, from + 1, base), |rows|, from, base, row);
    }
  }

  lemma ItemBelowInsert(item: Json, path: seq<string>, row: (nat, seq<string>) -> Option<Json>)
    requires IsInsert(item) && InsertedRows(Child(item, "insert").value.items, row)
    ensures var rows := Child(item, "insert").value.items;
            ItemBelow(item, path) == Under("insert", p => InRows(|rows|, 0, row, p), path)
  {
    if |path| > 1 {
      assert path[1..][0] == path[1] && path[1..][1..] == path[2..];
    }
  }

  lemma VisitItemExact(item: Json, base: seq<string>)
    ensures Exact(VisitItem(item, base), base, path => ItemBelow(item, path))
  {
    if IsInsert(item) {
      var rows := Child(item, "insert").value.items;
      var row := (i: nat, path: seq<string>) => if i < |rows| then EntryBelow(rows[i], path) else None;
      VisitInsertedExact(rows, 0, base + ["insert"], row);
      var inRows := path => InRows(|rows|, 0, row, path);
      ExactUnder(VisitItem(item, base), base, "insert", inRows);
      forall path
        ensures Under("insert", inRows, path) == ItemBelow(item, path)
      {
        ItemBelowInsert(item, path, row);
      }
      ExactSame(VisitItem(item, base), base, path => Under("insert", inRows, path), path => ItemBelow(item, path));
    } else {
      VisitEntryExact(item, base);
      ExactSame(VisitItem(item, base), base, path => EntryBelow(item, path), path => ItemBelow(item, path));
    }
  }

  ghost predicate ItemRows(items: seq<Json>, row: (nat, seq<string>) -> Option<Json>) {
    forall i: nat, path :: row(i, path) == (if i < |items| then ItemBelow(items[i], path) else None)
  }

  lemma {:induction false} VisitItemsExact(items: seq<Json>, from: nat, base: seq<string>,
                                           row: (nat, seq<string>) -> Option<Json>)
    requires from <= |items|
    requires ItemRows(items, row)
    ensures Exact(VisitItems(items, from, base), base, path => InRows(|items|, from, row, path))
    decreases |items| - from
  {
    if from == |items| {
      ExactNone(|items|, base, row);
    } else {
      var here := base + [Decimal(from)];
      var head := VisitItem(items[from], here);
      VisitItemExact(items[from], here);
      ExactSame(head, here, path => ItemBelow(items[from], path), path => row(from, path));
      VisitItemsExact(items, from + 1, base, row);
      ExactCons(head, VisitItems(items, from + 1, base), |items|, from, base, row);
    }
  }

  /** The walk lists every entry of the patch exactly once, at the path that
      leads to it, and nothing else. */
  lemma WalkIsExact(patch: Json, base: seq<string>)
    ensures Exact(WalkAllPatchEntries(patch, base), base, path => EntryAt(patch, path))
  {
    if patch.Arr? {
      var items := patch.items;
      var row := (i: nat, path: seq<string>) => if i < |items| then ItemBelow(items[i], path) else None;
      VisitItemsExact(items, 0, base, row);
      var inRows := path => InRows(|items|, 0, row, path);
      ExactSame(WalkAllPatchEntries(patch, base), base, inRows, path => EntryAt(patch, path));
    }
  }

  lemma {:induction false} EntryBelowWalks(entry: Json, path: seq<string>)
    requires EntryBelow(entry, path).Some?
    ensures Walk(entry, path) == EntryBelow(entry, path)
    decreases |path|
  {
    if path == [] {
    } else {
      var row := Child(Child(entry, "config").value, path[1]).value;
      EntryBelowWalks(row, path[2..]);
      assert path[1..][1..] == path[2..] && path[1..][0] == path[1];
    }
  }

  /** The path of an entry reads that entry. */
  lemma EntryAtWalks(patch: Json, path: seq<string>)
    requires EntryAt(patch, path).Some?
    ensures Walk(patch, path) == EntryAt(patch, path)
  {
    var item := Child(patch, path[0]).value;
    if !IsInsert(item) {
      EntryBelowWalks(item, path[1..]);
    } else {
      var row := Child(Child(item, "insert").value, path[1..][1]).value;
      EntryBelowWalks(row, path[1..][2..]);
      assert path[1..][1] == path[2] && path[1..][2..] == path[3..];
      assert path[1..][1..] == path[2..] && path[2..][1..] == path[3..];
      assert Walk(Child(item, "insert").value, path[2..]) == Walk(row, path[3..]);
    }
  }

  // ---- which places are entries, in what they read ----

  ghost predicate ReadsArray(j: Json, path: seq<string>, n: nat) {
    Walk(j, path).Some? && Walk(j, path).value.Arr? && n < |Walk(j, path).value.items|
  }

  lemma WalkOne(j: Json, key: string)
    ensures Walk(j, [key]) == Child(j, key)
  {
    assert [key][1..] == [];
  }

  lemma WalkTwo(j: Json, a: string, b: string)
    ensures Walk(j, [a, b]) == var c := Child(j, a); if c.None? then None else Child(c.value, b)
  {
    assert [a, b][1..] == [b];
    if Child(j, a).Some? {
      WalkOne(Child(j, a).value, b);
    }
  }

  /** An item is an entry itself unless it inserts a list; it is then every row of that list. */
  lemma TopEntries(patch: Json, i: nat, n: nat)
    requires patch.Arr? && i < |patch.items|
    ensures var item := patch.items[i];
            var inserts := Walk(item, ["insert"]).Some? && Walk(item, ["insert"]).value.Arr?;
            && EntryAt(patch, [Decimal(i)]) == (if inserts then None else Some(item))
            && EntryAt(patch, [Decimal(i), "insert", Decimal(n)]) ==
                 (if ReadsArray(item, ["insert"], n) then Some(Walk(item, ["insert"]).value.items[n]) else None)
  {
    var item := patch.items[i];
    ArrayIndexOfDecimal(i, |patch.items|);
    WalkOne(item, "insert");
    assert [Decimal(i)][1..] == [] && [Decimal(i), "insert", Decimal(n)][1..] == ["insert", Decimal(n)];
    assert ["insert", Decimal(n)][2..] == [];
    assert "insert" != "config";
    if Walk(item, ["insert"]).Some? && Walk(item, ["insert"]).value.Arr? {
      ArrayIndexOfDecimal(n, |Walk(item, ["insert"]).value.items|);
    }
  }

  lemma {:induction false} EntryBelowAppend(entry: Json, a: seq<string>, b: seq<string>)
    requires EntryBelow(entry, a).Some?
    ensures EntryBelow(entry, a + b) == EntryBelow(EntryBelow(entry, a).value, b)
    decreases |a|
  {
    if a == [] {
      assert a + b == b;
    } else {
      var row := Child(Child(entry, "config").value, a[1]).value;
      EntryBelowAppend(row, a[2..], b);
      assert (a + b)[1] == a[1] && (a + b)[2..] == a[2..] + b;
    }
  }

  lemma EntryAtAppend(patch: Json, a: seq<string>, b: seq<string>)
    requires EntryAt(patch, a).Some?
    ensures EntryAt(patch, a + b) == EntryBelow(EntryAt(patch, a).value, b)
  {
    var item := Child(patch, a[0]).value;
    assert (a + b)[0] == a[0] && (a + b)[1..] == a[1..] + b;
    if IsInsert(item) {
      var row := Child(Child(item, "insert").value, a[1..][1]).value;
      assert (a[1..] + b)[1] == a[1..][1] && (a[1..] + b)[2..] == a[1..][2..] + b;
      EntryBelowAppend(row, a[1..][2..], b);
    } else {
      EntryBelowAppend(item, a[1..], b);
    }
  }

  /** The rows of an entry are entries exactly where the entry reads true at `group` and
      an array at `config`, and the row is an object with an id that inserts nothing. */
  lemma GroupEntries(patch: Json, path: seq<string>, i: nat)
    requires EntryAt(patch, path).Some?
    ensures var entry := EntryAt(patch, path).value;
            var row := Walk(entry, ["config", Decimal(i)]);
            EntryAt(patch, path + ["config", Decimal(i)]) ==
              if Walk(entry, ["group"]) == Some(Bool(true)) && ReadsArray(entry, ["config"], i) && row.Some? && row.value.Obj?
                 && Walk(row.value, ["id"]).Some? && Walk(row.value, ["insert"]).None?
              then row else None
  {
    var entry := EntryAt(patch, path).value;
    EntryAtAppend(patch, path, ["config", Decimal(i)]);
    WalkOne(entry, "group");
    WalkOne(entry, "config");
    WalkTwo(entry, "config", Decimal(i));
    if IsGroup(entry) {
      GroupRow(entry, i);
    }
  }

  lemma GroupRow(entry: Json, i: nat)
    requires IsGroup(entry)
    ensures var rows := Child(entry, "config").value.items;
            EntryBelow(entry, ["config", Decimal(i)]) ==
              if i < |rows| && rows[i].Obj? && Walk(rows[i], ["id"]).Some? && Walk(rows[i], ["insert"]).None?
              then Some(rows[i]) else None
    ensures var rows := Child(entry, "config").value.items;
            Child(Child(entry, "config").value, Decimal(i)) == if i < |rows| then Some(rows[i]) else None
  {
    var rows := Child(entry, "config").value.items;
    ArrayIndexOfDecimal(i, |rows|);
    assert ["config", Decimal(i)][2..] == [];
    if i < |rows| {
      WalkOne(rows[i], "id");
      WalkOne(rows[i], "insert");
    }
  }

  lemma {:induction false} EntryBelowCut(entry: Json, path: seq<string>) returns (above: seq<string>, i: nat)
    requires path != [] && EntryBelow(entry, path).Some?
    ensures path == above + ["config", Decimal(i)] && EntryBelow(entry, above).Some?
    decreases |path|
  {
    var rows := Child(entry, "config").value;
    var row := Child(rows, path[1]).value;
    var k := ArrayIndex(path[1], |rows.items|).value;
    if |path| == 2 {
      above, i := [], k;
      assert path == ["config", Decimal(i)];
    } else {
      var inner;
      inner, i := EntryBelowCut(row, path[2..]);
      above := path[..2] + inner;
      assert above[2..] == inner && path == path[..2] + path[2..];
    }
  }

  ghost predicate IsItem(path: seq<string>) { exists i: nat :: path == [Decimal(i)] }

  ghost predicate IsInserted(path: seq<string>) {
    exists i: nat, n: nat :: path == [Decimal(i), "insert", Decimal(n)]
  }

  ghost predicate IsRowOfEntry(patch: Json, path: seq<string>) {
    exists above, i: nat :: path == above + ["config", Decimal(i)] && EntryAt(patch, above).Some?
  }

  lemma RowOfEntry(patch: Json, head: seq<string>, above: seq<string>, rest: seq<string>, i: nat)
    requires rest == above + ["config", Decimal(i)] && EntryAt(patch, head + above).Some?
    ensures IsRowOfEntry(patch, head + rest)
  {
    assert head + rest == (head + above) + ["config", Decimal(i)];
  }

  lemma UnderItem(patch: Json, path: seq<string>)
    requires EntryAt(patch, path).Some? && !IsInsert(Child(patch, path[0]).value)
    ensures IsItem(path) || IsRowOfEntry(patch, path)
  {
    var item, rest := Child(patch, path[0]).value, path[1..];
    assert path == [path[0]] + rest;
    if rest == [] {
      assert path == [Decimal(ArrayIndex(path[0], |patch.items|).value)];
    } else {
      var above, k := EntryBelowCut(item, rest);
      var up := [path[0]] + above;
      assert up[0] == path[0] && up[1..] == above;
      RowOfEntry(patch, [path[0]], above, rest, k);
    }
  }

  lemma UnderInsert(patch: Json, path: seq<string>)
    requires EntryAt(patch, path).Some? && IsInsert(Child(patch, path[0]).value)
    ensures IsInserted(path) || IsRowOfEntry(patch, path)
  {
    var item, rest := Child(patch, path[0]).value, path[1..];
    var rows := Child(item, "insert").value;
    var head, tail := path[..3], rest[2..];
    assert rest[0] == path[1] && rest[1] == path[2] && tail == path[3..] && path == head + tail;
    if tail == [] {
      var i, n := ArrayIndex(path[0], |patch.items|).value, ArrayIndex(path[2], |rows.items|).value;
      assert path == [Decimal(i), "insert", Decimal(n)];
    } else {
      var above, k := EntryBelowCut(Child(rows, rest[1]).value, tail);
      InsertedBelow(patch, item, head, above);
      RowOfEntry(patch, head, above, tail, k);
    }
  }

  /** There are no other entries: each is an item, an inserted row, or a row of an entry. */
  lemma NoOtherEntries(patch: Json, path: seq<string>)
    requires EntryAt(patch, path).Some?
    ensures IsItem(path) || IsInserted(path) || IsRowOfEntry(patch, path)
  {
    if IsInsert(Child(patch, path[0]).value) {
      UnderInsert(patch, path);
    } else {
      UnderItem(patch, path);
    }
  }

  lemma InsertedBelow(patch: Json, item: Json, head: seq<string>, above: seq<string>)
    requires patch.Arr? && |head| == 3 && Child(patch, head[0]) == Some(item) && IsInsert(item) && head[1] == "insert"
    requires Child(Child(item, "insert").value, head[2]).Some?
    requires EntryBelow(Child(Child(item, "insert").value, head[2]).value, above).Some?
    ensures EntryAt(patch, head + above).Some?
  {
    var path := head + above;
    assert path[0] == head[0] && path[1..][0] == head[1] && path[1..][1] == head[2] && path[1..][2..] == above;
  }
}
