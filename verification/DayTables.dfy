/**
 * The day tables of the audit store, in the order `sqlite_master` lists them,
 * and the order in which verification walks them: by table name.
 *
 * Main results: creating an empty table changes no walk, and a row inserted
 * into a table no older than every row present comes last in the walk.
 */
module DayTables {
  import opened AuditChain

  datatype Table = Table(name: string, nextId: nat, rows: seq<Row>)

  // Lexicographic order by code point, as Python compares strings.
  predicate LexLe(a: string, b: string) {
    a == [] || (b != [] && (a[0] < b[0] || (a[0] == b[0] && LexLe(a[1..], b[1..]))))
  }

  lemma {:induction false} LexTotal(a: string, b: string)
    ensures LexLe(a, b) || LexLe(b, a)
  {
    if a != [] && b != [] && a[0] == b[0] { LexTotal(a[1..], b[1..]); }
  }

  lemma {:induction false} LexTransitive(a: string, b: string, c: string)
    requires LexLe(a, b) && LexLe(b, c)
    ensures LexLe(a, c)
  {
    if a != [] && a[0] == b[0] && b[0] == c[0] { LexTransitive(a[1..], b[1..], c[1..]); }
  }

  lemma {:induction false} LexAntisymmetric(a: string, b: string)
    requires LexLe(a, b) && LexLe(b, a)
    ensures a == b
  {
    if a != [] {
      LexAntisymmetric(a[1..], b[1..]);
      assert a == [a[0]] + a[1..] && b == [b[0]] + b[1..];
    }
  }

  predicate Sorted(ts: seq<Table>) {
    forall i, j :: 0 <= i < j < |ts| ==> LexLe(ts[i].name, ts[j].name)
  }

  predicate Distinct(ts: seq<Table>) {
    forall i, j :: 0 <= i < j < |ts| ==> ts[i].name != ts[j].name
  }

  predicate Has(ts: seq<Table>, name: string) {
    exists i :: 0 <= i < |ts| && ts[i].name == name
  }

  // sorted(...) of the table names, as an insertion sort.
  function Insert(t: Table, ts: seq<Table>): seq<Table> {
    if ts == [] || LexLe(t.name, ts[0].name) then [t] + ts else [ts[0]] + Insert(t, ts[1..])
  }

  function Sort(ts: seq<Table>): seq<Table> {
    if ts == [] then [] else Insert(ts[|ts| - 1], Sort(ts[..|ts| - 1]))
  }

  function RowsOf(name: string, rows: seq<Row>): (es: seq<Entry>)
    ensures |es| == |rows|
    ensures forall i :: 0 <= i < |rows| ==> es[i] == Entry(name, rows[i])
  {
    seq(|rows|, i requires 0 <= i < |rows| => Entry(name, rows[i]))
  }

  function Flatten(ts: seq<Table>): seq<Entry> {
    if ts == [] then [] else RowsOf(ts[0].name, ts[0].rows) + Flatten(ts[1..])
  }

  /** All rows, in the order verification reads them. */
  function Walk(ts: seq<Table>): seq<Entry> {
    Flatten(Sort(ts))
  }

  // CREATE TABLE IF NOT EXISTS.
  function Ensure(ts: seq<Table>, name: string): seq<Table> {
    if Has(ts, name) then ts else ts + [Table(name, 1, [])]
  }

  // INSERT INTO the table of that name.
  function Append(ts: seq<Table>, name: string, row: Row): seq<Table> {
    if ts == [] then []
    else [if ts[0].name == name then Table(name, ts[0].nextId + 1, ts[0].rows + [row]) else ts[0]]
         + Append(ts[1..], name, row)
  }

  function NextId(ts: seq<Table>, name: string): nat {
    if ts == [] then 1 else if ts[0].name == name then ts[0].nextId else NextId(ts[1..], name)
  }

  // ----- Sorting -----

  lemma {:induction false} InsertHas(t: Table, ts: seq<Table>, name: string)
    ensures Has(Insert(t, ts), name) <==> t.name == name || Has(ts, name)
    ensures |Insert(t, ts)| == |ts| + 1
  {
    var r := Insert(t, ts);
    if ts == [] || LexLe(t.name, ts[0].name) {
      HasCons(t, ts, name);
    } else {
      InsertHas(t, ts[1..], name);
      HasCons(ts[0], Insert(t, ts[1..]), name);
      HasCons(ts[0], ts[1..], name);
      assert ts == [ts[0]] + ts[1..];
    }
  }

  lemma {:induction false} HasCons(t: Table, ts: seq<Table>, name: string)
    ensures Has([t] + ts, name) <==> t.name == name || Has(ts, name)
  {
    var r := [t] + ts;
    if t.name == name { assert r[0].name == name; }
    if Has(ts, name) {
      var i :| 0 <= i < |ts| && ts[i].name == name;
      assert r[i + 1].name == name;
    }
    if Has(r, name) {
      var i :| 0 <= i < |r| && r[i].name == name;
      if i > 0 { assert ts[i - 1].name == name; }
    }
  }

  predicate AllFrom(ts: seq<Table>, name: string) {
    forall i :: 0 <= i < |ts| ==> LexLe(name, ts[i].name)
  }

  lemma {:induction false} InsertFrom(t: Table, ts: seq<Table>, name: string)
    requires AllFrom(ts, name) && LexLe(name, t.name)
    ensures AllFrom(Insert(t, ts), name)
  {
    if !(ts == [] || LexLe(t.name, ts[0].name)) {
      InsertFrom(t, ts[1..], name);
    }
  }

  lemma {:induction false} InsertSorted(t: Table, ts: seq<Table>)
    requires Sorted(ts)
    ensures Sorted(Insert(t, ts))
  {
    if ts == [] {
    } else if LexLe(t.name, ts[0].name) {
      forall i | 0 <= i < |ts| ensures LexLe(t.name, ts[i].name) {
        if i > 0 { LexTransitive(t.name, ts[0].name, ts[i].name); }
      }
    } else {
      LexTotal(t.name, ts[0].name);
      InsertSorted(t, ts[1..]);
      InsertFrom(t, ts[1..], ts[0].name);
    }
  }

  lemma {:induction false} InsertDistinct(t: Table, ts: seq<Table>)
    requires Distinct(ts) && !Has(ts, t.name)
    ensures Distinct(Insert(t, ts))
  {
    if ts == [] || LexLe(t.name, ts[0].name) {
    } else {
      assert ts == [ts[0]] + ts[1..];
      HasCons(ts[0], ts[1..], t.name);
      InsertDistinct(t, ts[1..]);
      InsertHas(t, ts[1..], ts[0].name);
    }
  }

  lemma {:induction false} SortHas(ts: seq<Table>, name: string)
    ensures Has(Sort(ts), name) <==> Has(ts, name)
  {
    if ts != [] {
      var init, t := ts[..|ts| - 1], ts[|ts| - 1];
      SortHas(init, name);
      InsertHas(t, Sort(init), name);
      HasSnoc(init, t, name);
      assert ts == init + [t];
    }
  }

  lemma {:induction false} HasSnoc(ts: seq<Table>, t: Table, name: string)
    ensures Has(ts + [t], name) <==> t.name == name || Has(ts, name)
  {
    var r := ts + [t];
    if t.name == name { assert r[|ts|].name == name; }
    if Has(ts, name) {
      var i :| 0 <= i < |ts| && ts[i].name == name;
      assert r[i].name == name;
    }
  }

  lemma {:induction false} SortSorts(ts: seq<Table>)
    requires Distinct(ts)
    ensures Sorted(Sort(ts)) && Distinct(Sort(ts))
  {
    if ts != [] {
      var init, t := ts[..|ts| - 1], ts[|ts| - 1];
      SortSorts(init);
      InsertSorted(t, Sort(init));
      SortHas(init, t.name);
      InsertDistinct(t, Sort(init));
    }
  }

  // ----- Creating a table -----

  lemma {:induction false} InsertEmpty(t: Table, ts: seq<Table>)
    requires t.rows == []
    ensures Flatten(Insert(t, ts)) == Flatten(ts)
  {
    if ts == [] || LexLe(t.name, ts[0].name) {
      assert ([t] + ts)[1..] == ts;
    } else {
      InsertEmpty(t, ts[1..]);
      assert ([ts[0]] + Insert(t, ts[1..]))[1..] == Insert(t, ts[1..]);
    }
  }

  lemma {:induction false} EnsureKeepsWalk(ts: seq<Table>, name: string)
    requires Distinct(ts)
    ensures Walk(Ensure(ts, name)) == Walk(ts)
    ensures Distinct(Ensure(ts, name)) && Has(Ensure(ts, name), name)
  {
    if !Has(ts, name) {
      var t := Table(name, 1, []);
      assert (ts + [t])[..|ts|] == ts;
      InsertEmpty(t, Sort(ts));
      HasSnoc(ts, t, name);
    }
  }

  // ----- Inserting a row -----

  lemma {:induction false} AppendNames(ts: seq<Table>, name: string, row: Row)
    ensures |Append(ts, name, row)| == |ts|
    ensures forall i :: 0 <= i < |ts| ==> Append(ts, name, row)[i].name == ts[i].name
  {
    if ts != [] {
      AppendNames(ts[1..], name, row);
    }
  }

  lemma {:induction false} AppendSnoc(ts: seq<Table>, t: Table, name: string, row: Row)
    ensures Append(ts + [t], name, row) == Append(ts, name, row) + Append([t], name, row)
  {
    if ts == [] {
      assert ts + [t] == [t];
    } else {
      assert (ts + [t])[1..] == ts[1..] + [t];
      AppendSnoc(ts[1..], t, name, row);
    }
  }

  lemma {:induction false} InsertAppend(t: Table, ts: seq<Table>, name: string, row: Row)
    ensures Insert(Append([t], name, row)[0], Append(ts, name, row)) == Append(Insert(t, ts), name, row)
  {
    var t' := Append([t], name, row)[0];
    if ts == [] {
    } else if LexLe(t.name, ts[0].name) {
      assert ([t] + ts)[1..] == ts;
    } else {
      InsertAppend(t, ts[1..], name, row);
      var rest := Insert(t, ts[1..]);
      assert ([ts[0]] + rest)[1..] == rest;
      assert Append(ts, name, row)[1..] == Append(ts[1..], name, row);
    }
  }

  /** Sorting looks at names only, so it commutes with inserting a row. */
  lemma {:induction false} SortAppend(ts: seq<Table>, name: string, row: Row)
    ensures Sort(Append(ts, name, row)) == Append(Sort(ts), name, row)
  {
    if ts != [] {
      var init, t := ts[..|ts| - 1], ts[|ts| - 1];
      assert ts == init + [t];
      AppendSnoc(init, t, name, row);
      SortAppend(init, name, row);
      InsertAppend(t, Sort(init), name, row);
      var r := Append(ts, name, row);
      assert r[..|r| - 1] == Append(init, name, row);
    }
  }

  lemma {:induction false} AppendElsewhere(ts: seq<Table>, name: string, row: Row)
    requires !Has(ts, name)
    ensures Append(ts, name, row) == ts
  {
    if ts != [] {
      assert ts == [ts[0]] + ts[1..];
      HasCons(ts[0], ts[1..], name);
      AppendElsewhere(ts[1..], name, row);
    }
  }

  ghost predicate NoneAfter(es: seq<Entry>, name: string) {
    forall i :: 0 <= i < |es| ==> LexLe(es[i].table, name)
  }

  // Tables after `name` in a sorted list are empty when no row is from after `name`.
  lemma {:induction false} LaterEmpty(ts: seq<Table>, name: string)
    requires AllFrom(ts, name) && !Has(ts, name) && NoneAfter(Flatten(ts), name)
    ensures Flatten(ts) == []
  {
    if ts != [] {
      var es, rest := RowsOf(ts[0].name, ts[0].rows), Flatten(ts[1..]);
      assert ts == [ts[0]] + ts[1..];
      HasCons(ts[0], ts[1..], name);
      assert forall i :: 0 <= i < |rest| ==> rest[i] == Flatten(ts)[|es| + i];
      if es != [] {
        assert Flatten(ts)[0] == es[0];
        LexAntisymmetric(ts[0].name, name);
      }
      LaterEmpty(ts[1..], name);
    }
  }

  lemma {:induction false} FlattenSplit(ts: seq<Table>, name: string)
    requires ts != [] && NoneAfter(Flatten(ts), name)
    ensures NoneAfter(Flatten(ts[1..]), name)
  {
    hide LexLe;
    var es, rest := RowsOf(ts[0].name, ts[0].rows), Flatten(ts[1..]);
    forall i | 0 <= i < |rest|
      ensures LexLe(rest[i].table, name)
    {
      assert rest[i] == Flatten(ts)[|es| + i];
    }
  }

  lemma {:induction false} FlattenAppendHere(t: Table, rest: seq<Table>, row: Row)
    requires AllFrom(rest, t.name) && !Has(rest, t.name) && NoneAfter(Flatten(rest), t.name)
    ensures Flatten(Append([t] + rest, t.name, row)) == Flatten([t] + rest) + [Entry(t.name, row)]
  {
    var ts := [t] + rest;
    assert ts[1..] == rest;
    AppendElsewhere(rest, t.name, row);
    LaterEmpty(rest, t.name);
    var t' := Table(t.name, t.nextId + 1, t.rows + [row]);
    assert Append(ts, t.name, row) == [t'] + rest && ([t'] + rest)[1..] == rest;
    assert RowsOf(t.name, t.rows + [row]) == RowsOf(t.name, t.rows) + [Entry(t.name, row)];
  }

  lemma {:induction false} FlattenAppend(ts: seq<Table>, name: string, row: Row)
    requires Sorted(ts) && Distinct(ts) && Has(ts, name) && NoneAfter(Flatten(ts), name)
    ensures Flatten(Append(ts, name, row)) == Flatten(ts) + [Entry(name, row)]
  {
    var rest, r := ts[1..], Append(ts, name, row);
    assert ts == [ts[0]] + rest && r[1..] == Append(rest, name, row);
    FlattenSplit(ts, name);
    if ts[0].name == name {
      assert !Has(rest, name);
      FlattenAppendHere(ts[0], rest, row);
    } else {
      HasCons(ts[0], rest, name);
      FlattenAppend(rest, name, row);
    }
  }

  /** A row inserted today is the last of the walk, when no row is from after today. */
  lemma {:induction false} AppendExtendsWalk(ts: seq<Table>, name: string, row: Row)
    requires Distinct(ts) && Has(ts, name) && NoneAfter(Walk(ts), name)
    ensures Walk(Append(ts, name, row)) == Walk(ts) + [Entry(name, row)]
    ensures Distinct(Append(ts, name, row))
  {
    SortAppend(ts, name, row);
    SortSorts(ts);
    SortHas(ts, name);
    FlattenAppend(Sort(ts), name, row);
    AppendNames(ts, name, row);
  }

  // ----- Facts that hold whatever the dates are -----

  lemma {:induction false} FlattenMembers(ts: seq<Table>, name: string, row: Row, e: Entry)
    requires e in Flatten(Append(ts, name, row))
    ensures e in Flatten(ts) || e == Entry(name, row)
  {
    if ts != [] {
      var r := Append(ts, name, row);
      assert r[1..] == Append(ts[1..], name, row);
      if e in Flatten(r[1..]) {
        FlattenMembers(ts[1..], name, row, e);
      } else {
        assert e in RowsOf(r[0].name, r[0].rows);
      }
    }
  }

  lemma {:induction false} FlattenKeeps(ts: seq<Table>, name: string, row: Row, e: Entry)
    requires e in Flatten(ts) || (Has(ts, name) && e == Entry(name, row))
    ensures e in Flatten(Append(ts, name, row))
  {
    if ts != [] {
      var r := Append(ts, name, row);
      assert r[1..] == Append(ts[1..], name, row) && ts == [ts[0]] + ts[1..];
      HasCons(ts[0], ts[1..], name);
      var es, es' := RowsOf(ts[0].name, ts[0].rows), RowsOf(r[0].name, r[0].rows);
      if e in es {
        var i :| 0 <= i < |es| && es[i] == e;
        assert es'[i] == e;
      } else if e !in Flatten(ts[1..]) && ts[0].name == name {
        assert es'[|es|] == Entry(name, row);
      } else {
        FlattenKeeps(ts[1..], name, row, e);
      }
    }
  }

  /** Inserting a row adds that row to the walk and no other, wherever it lands. */
  lemma {:induction false} AppendMembers(ts: seq<Table>, name: string, row: Row, e: Entry)
    requires Has(ts, name)
    ensures e in Walk(Append(ts, name, row)) <==> e in Walk(ts) || e == Entry(name, row)
  {
    SortAppend(ts, name, row);
    SortHas(ts, name);
    if e in Walk(Append(ts, name, row)) {
      FlattenMembers(Sort(ts), name, row, e);
    } else if e in Walk(ts) || e == Entry(name, row) {
      FlattenKeeps(Sort(ts), name, row, e);
    }
  }

  lemma {:induction false} FlattenStep(ts: seq<Table>, i: nat)
    requires i < |ts|
    ensures Flatten(ts[i..]) == RowsOf(ts[i].name, ts[i].rows) + Flatten(ts[i + 1..])
  {
    assert ts[i..][1..] == ts[i + 1..];
  }

  lemma {:induction false} FlattenSorted(ts: seq<Table>, i: nat, j: nat)
    requires Sorted(ts) && i < j < |Flatten(ts)|
    ensures LexLe(Flatten(ts)[i].table, Flatten(ts)[j].table)
  {
    var es, rest := RowsOf(ts[0].name, ts[0].rows), Flatten(ts[1..]);
    if i >= |es| {
      FlattenSorted(ts[1..], i - |es|, j - |es|);
    } else if j >= |es| {
      FlattenFrom(ts[1..], ts[0].name, j - |es|);
    } else {
      LexTotal(ts[0].name, ts[0].name);
    }
  }

  lemma {:induction false} FlattenFrom(ts: seq<Table>, name: string, i: nat)
    requires AllFrom(ts, name) && i < |Flatten(ts)|
    ensures LexLe(name, Flatten(ts)[i].table)
  {
    var es := RowsOf(ts[0].name, ts[0].rows);
    if i >= |es| {
      FlattenFrom(ts[1..], name, i - |es|);
    }
  }

  // ----- Row numbers -----

  // AUTOINCREMENT: numbers rise within a table, and the next one is above them all.
  ghost predicate Rising(t: Table) {
    && (forall i :: 0 <= i < |t.rows| ==> t.rows[i].id < t.nextId)
    && forall i, j :: 0 <= i < j < |t.rows| ==> t.rows[i].id < t.rows[j].id
  }

  ghost predicate AllRising(ts: seq<Table>) {
    forall i :: 0 <= i < |ts| ==> Rising(ts[i])
  }

  lemma {:induction false} AppendRising(ts: seq<Table>, name: string, row: Row)
    requires AllRising(ts) && (Has(ts, name) ==> row.id == NextId(ts, name)) && Distinct(ts)
    ensures AllRising(Append(ts, name, row))
  {
    if ts != [] {
      assert ts == [ts[0]] + ts[1..];
      HasCons(ts[0], ts[1..], name);
      var rest := Append(ts[1..], name, row);
      if ts[0].name == name {
        AppendElsewhere(ts[1..], name, row);
        assert Rising(Append(ts, name, row)[0]);
      } else {
        AppendRising(ts[1..], name, row);
      }
      assert Append(ts, name, row)[1..] == rest;
      forall i | 0 <= i < |Append(ts, name, row)|
        ensures Rising(Append(ts, name, row)[i])
      {
        if i > 0 { assert Append(ts, name, row)[i] == rest[i - 1]; }
      }
    }
  }

  lemma {:induction false} EnsureRising(ts: seq<Table>, name: string)
    requires AllRising(ts)
    ensures AllRising(Ensure(ts, name))
  {
  }

  lemma {:induction false} InsertRising(t: Table, ts: seq<Table>)
    requires Rising(t) && AllRising(ts)
    ensures AllRising(Insert(t, ts))
  {
    hide Rising, LexLe;
    if !(ts == [] || LexLe(t.name, ts[0].name)) {
      InsertRising(t, ts[1..]);
    }
  }

  lemma {:induction false} SortRising(ts: seq<Table>)
    requires AllRising(ts)
    ensures AllRising(Sort(ts))
  {
    hide Rising;
    if ts != [] {
      SortRising(ts[..|ts| - 1]);
      InsertRising(ts[|ts| - 1], Sort(ts[..|ts| - 1]));
    }
  }

  lemma {:induction false} FlattenHas(ts: seq<Table>, i: nat)
    requires i < |Flatten(ts)|
    ensures Has(ts, Flatten(ts)[i].table)
  {
    var es := RowsOf(ts[0].name, ts[0].rows);
    assert ts == [ts[0]] + ts[1..];
    HasCons(ts[0], ts[1..], Flatten(ts)[i].table);
    if i >= |es| { FlattenHas(ts[1..], i - |es|); }
  }

  lemma {:induction false} FlattenIdentified(ts: seq<Table>, i: nat, j: nat)
    requires Distinct(ts) && AllRising(ts) && i < j < |Flatten(ts)|
    ensures Flatten(ts)[i].table != Flatten(ts)[j].table || Flatten(ts)[i].row.id < Flatten(ts)[j].row.id
  {
    var es := RowsOf(ts[0].name, ts[0].rows);
    if i >= |es| {
      FlattenIdentified(ts[1..], i - |es|, j - |es|);
    } else if j >= |es| {
      FlattenHas(ts[1..], j - |es|);
    } else {
      assert Rising(ts[0]);
    }
  }

  /** Table and number name one row of the walk. */
  lemma {:induction false} RowsIdentified(ts: seq<Table>, i: nat, j: nat)
    requires Distinct(ts) && AllRising(ts) && i < |Walk(ts)| && j < |Walk(ts)|
    requires Walk(ts)[i].table == Walk(ts)[j].table && Walk(ts)[i].row.id == Walk(ts)[j].row.id
    ensures i == j
  {
    SortSorts(ts);
    SortRising(ts);
    if i < j {
      FlattenIdentified(Sort(ts), i, j);
    } else if j < i {
      FlattenIdentified(Sort(ts), j, i);
    }
  }
}
