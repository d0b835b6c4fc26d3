/** GroupModel: a read-only view over one master model that adds GROUP BY
    keys and aggregate fields. Its own conditions are applied as HAVING; the
    master's conditions stay in WHERE. */
module Group {
  import opened Sql
  import opened PhpArray

  /** An aggregate seed: a bare template, or a template with a declared type
      (`['sum([])', 'type' => 'money']`). */
  datatype AggSeed = StrSeed(template: string) | ArrSeed(template: string, typ: Option<string>)

  /** The seed handed to addField: an expression object, the never_persist
      flag, and a type. */
  datatype FieldSeed = FieldSeed(expr: Option<Expr>, neverPersist: bool, typ: Option<string>)

  const PlainSeed: FieldSeed := FieldSeed(None, false, None)

  /** The view: its own fields (its table is the master's), the master model,
      the grouping keys, the aggregates, the `system_fields` PHP array and the
      only_fields restriction. */
  datatype GroupView = GroupView(
    schema: Schema,
    master: Schema,
    group: seq<string>,
    aggregate: seq<(string, AggSeed)>,
    systemFields: PArray<string>,
    onlyFields: seq<string>)
  {
    ghost predicate Valid() {
      schema.Valid() && schema.table == master.table
    }
  }

  /** A fresh view over `master`: no fields, no grouping, the master's table. */
  function New(master: Schema): (g: GroupView)
    ensures g.Valid() && g.master == master && g.schema.names == [] && g.systemFields == []
  {
    GroupView(Schema(master.table, [], map[], [], [], None), master, [], [], [], [])
  }

  function OrEmpty(t: Option<string>): string {
    if t.Some? then t.value else ""
  }

  // ---------------------------------------------------------------- addField

  /** The definition addField gives `name`: an expression or never-persisted
      seed is taken as it is; otherwise the master's field of that name is
      inherited, with the seed's type (if any) on top; otherwise the seed
      alone. */
  function FieldFor(master: Schema, name: string, seed: FieldSeed): (f: FieldInfo)
    ensures seed.expr.Some? || seed.neverPersist ==>
      f == FieldInfo(seed.expr, false, seed.neverPersist, "", OrEmpty(seed.typ))
    ensures seed.expr.None? && !seed.neverPersist && name in master.info ==>
      f == master.info[name].(typ := if seed.typ.Some? then seed.typ.value else master.info[name].typ)
    ensures seed.expr.None? && !seed.neverPersist && name !in master.info ==>
      f == FieldInfo(None, false, false, "", OrEmpty(seed.typ))
  {
    if seed.expr.Some? || seed.neverPersist then
      FieldInfo(seed.expr, false, seed.neverPersist, "", OrEmpty(seed.typ))
    else if name in master.info then
      var mf := master.info[name];
      mf.(typ := if seed.typ.Some? then seed.typ.value else mf.typ)
    else FieldInfo(None, false, false, "", OrEmpty(seed.typ))
  }

  /** `addField(name, seed)`. */
  function AddField(g: GroupView, name: string, seed: FieldSeed): (r: GroupView)
    requires g.Valid()
    ensures r.Valid()
    ensures r == g.(schema := Define(g.schema, name, FieldFor(g.master, name, seed)))
  {
    g.(schema := Define(g.schema, name, FieldFor(g.master, name, seed)))
  }

  /** A plain addField of a master field copies the master's definition. */
  lemma AddFieldInherits(g: GroupView, name: string)
    requires g.Valid() && name in g.master.info
    ensures AddField(g, name, PlainSeed).schema.info[name] == g.master.info[name]
  {
  }

  // ---------------------------------------------------------------- groupBy

  /** Registers each group key as a field (a plain addField). */
  function AddKeys(s: Schema, master: Schema, keys: seq<string>): (r: Schema)
    requires s.Valid()
    ensures r.Valid()
    ensures r.table == s.table && r.conditions == s.conditions
    ensures r.order == s.order && r.limit == s.limit
    decreases |keys|
  {
    if |keys| == 0 then s
    else AddKeys(Define(s, keys[0], FieldFor(master, keys[0], PlainSeed)), master, keys[1..])
  }

  /** The expression field of one aggregate: its template applied to the
      master's field of that name, or to NULL when the master lacks it. */
  function AggregateField(master: Schema, name: string, seed: AggSeed): (f: FieldInfo)
    ensures f.expr.Some? && f.expr.value.Template? && f.expr.value.template == seed.template
    ensures f.expr.value.args == [if name in master.info then Column(master, name) else Null]
    ensures !f.join && !f.neverPersist
    ensures f.typ == (if seed.ArrSeed? then OrEmpty(seed.typ) else "")
  {
    var arg := if name in master.info then Column(master, name) else Null;
    var typ := match seed
      case StrSeed(_) => ""
      case ArrSeed(_, t) => OrEmpty(t);
    FieldInfo(Some(Template(seed.template, [arg])), false, false, "", typ)
  }

  function AddAggregates(s: Schema, master: Schema, agg: seq<(string, AggSeed)>): (r: Schema)
    requires s.Valid()
    ensures r.Valid()
    ensures r.table == s.table && r.conditions == s.conditions
    ensures r.order == s.order && r.limit == s.limit
    decreases |agg|
  {
    if |agg| == 0 then s
    else AddAggregates(Define(s, agg[0].0, AggregateField(master, agg[0].0, agg[0].1)), master, agg[1..])
  }

  /** `groupBy(group, aggregate)`: the keys and aggregates are replaced, the
      keys are added to `system_fields` by PHP's `array_unique(system_fields
      + group)`, each key is registered as a field, and each aggregate becomes
      an expression field. */
  function GroupBy(g: GroupView, group: seq<string>, agg: seq<(string, AggSeed)>): (r: GroupView)
    requires g.Valid()
    ensures r.Valid()
    ensures r.group == group && r.aggregate == agg
    ensures r.master == g.master && r.onlyFields == g.onlyFields
    ensures r.schema.conditions == g.schema.conditions
    ensures r.systemFields == Unique(Plus(g.systemFields, FromList(group)))
  {
    var keyed := AddKeys(g.schema, g.master, group);
    g.(schema := AddAggregates(keyed, g.master, agg), group := group, aggregate := agg,
       systemFields := Unique(Plus(g.systemFields, FromList(group))))
  }

  lemma {:induction false} AddKeysNames(s: Schema, master: Schema, keys: seq<string>)
    requires s.Valid()
    ensures forall n :: n in AddKeys(s, master, keys).info <==> n in s.info || n in keys
    decreases |keys|
  {
    if |keys| > 0 {
      AddKeysNames(Define(s, keys[0], FieldFor(master, keys[0], PlainSeed)), master, keys[1..]);
      assert keys == [keys[0]] + keys[1..];
    }
  }

  /** Every group key ends up defined as the plain addField defines it. */
  lemma {:induction false} AddKeysDefine(s: Schema, master: Schema, keys: seq<string>, k: string)
    requires s.Valid() && k in keys
    ensures k in AddKeys(s, master, keys).info
    ensures AddKeys(s, master, keys).info[k] == FieldFor(master, k, PlainSeed)
    decreases |keys|
  {
    var s1 := Define(s, keys[0], FieldFor(master, keys[0], PlainSeed));
    if k in keys[1..] {
      AddKeysDefine(s1, master, keys[1..], k);
    } else {
      AddKeysKeeps(s1, master, keys[1..], k);
    }
  }

  lemma {:induction false} AddKeysKeeps(s: Schema, master: Schema, keys: seq<string>, n: string)
    requires s.Valid() && n in s.info && n !in keys
    ensures n in AddKeys(s, master, keys).info
    ensures AddKeys(s, master, keys).info[n] == s.info[n]
    decreases |keys|
  {
    if |keys| > 0 {
      assert keys[0] != n;
      AddKeysKeeps(Define(s, keys[0], FieldFor(master, keys[0], PlainSeed)), master, keys[1..], n);
    }
  }

  lemma {:induction false} AddAggregatesNames(s: Schema, master: Schema, agg: seq<(string, AggSeed)>)
    requires s.Valid()
    ensures forall n :: n in AddAggregates(s, master, agg).info <==> n in s.info || n in Keys(agg)
    decreases |agg|
  {
    if |agg| > 0 {
      var s1 := Define(s, agg[0].0, AggregateField(master, agg[0].0, agg[0].1));
      AddAggregatesNames(s1, master, agg[1..]);
      KeysCons(agg);
      forall n ensures n in AddAggregates(s, master, agg).info <==> n in s.info || n in Keys(agg) {
        assert n in s1.info <==> n == agg[0].0 || n in s.info;
      }
    }
  }

  lemma {:induction false} AddAggregatesKeeps(s: Schema, master: Schema, agg: seq<(string, AggSeed)>, n: string)
    requires s.Valid() && n in s.info && n !in Keys(agg)
    ensures n in AddAggregates(s, master, agg).info
    ensures AddAggregates(s, master, agg).info[n] == s.info[n]
    decreases |agg|
  {
    if |agg| > 0 {
      assert Keys(agg)[0] != n;
      assert Keys(agg[1..]) == Keys(agg)[1..];
      AddAggregatesKeeps(Define(s, agg[0].0, AggregateField(master, agg[0].0, agg[0].1)), master, agg[1..], n);
    }
  }

  /** With distinct aggregate names, each aggregate field is exactly its
      template over the master's field. */
  lemma {:induction false} AddAggregatesDefine(s: Schema, master: Schema, agg: seq<(string, AggSeed)>, i: nat)
    requires s.Valid() && Distinct(Keys(agg)) && i < |agg|
    ensures agg[i].0 in AddAggregates(s, master, agg).info
    ensures AddAggregates(s, master, agg).info[agg[i].0] == AggregateField(master, agg[i].0, agg[i].1)
    decreases |agg|
  {
    var s1 := Define(s, agg[0].0, AggregateField(master, agg[0].0, agg[0].1));
    var tail := agg[1..];
    assert Keys(tail) == Keys(agg)[1..];
    if i > 0 {
      assert agg[i] == tail[i - 1];
      AddAggregatesDefine(s1, master, tail, i - 1);
    } else {
      assert agg[0].0 !in Keys(tail) by {
        forall j | 0 <= j < |tail| ensures Keys(tail)[j] != agg[0].0 {
          assert Keys(agg)[j + 1] != Keys(agg)[0];
        }
      }
      AddAggregatesKeeps(s1, master, tail, agg[0].0);
    }
  }

  /** After groupBy: every group key is a field, inheriting the master's
      definition unless an aggregate of the same name replaced it, and every
      aggregate is its template over the master's field. */
  lemma GroupByFields(g: GroupView, group: seq<string>, agg: seq<(string, AggSeed)>)
    requires g.Valid() && Distinct(Keys(agg))
    ensures var r := GroupBy(g, group, agg);
      forall i :: 0 <= i < |agg| ==>
        agg[i].0 in r.schema.info && r.schema.info[agg[i].0] == AggregateField(g.master, agg[i].0, agg[i].1)
    ensures var r := GroupBy(g, group, agg);
      forall k :: k in group && k !in Keys(agg) ==>
        k in r.schema.info && r.schema.info[k] == FieldFor(g.master, k, PlainSeed)
    ensures var r := GroupBy(g, group, agg);
      forall n :: n in r.schema.info <==> n in g.schema.info || n in group || n in Keys(agg)
    ensures var r := GroupBy(g, group, agg);
      forall n :: n in g.schema.info && n !in group && n !in Keys(agg) ==>
        n in r.schema.info && r.schema.info[n] == g.schema.info[n]
  {
    var keyed := AddKeys(g.schema, g.master, group);
    AddKeysNames(g.schema, g.master, group);
    AddAggregatesNames(keyed, g.master, agg);
    forall n | n in g.schema.info && n !in group && n !in Keys(agg)
      ensures n in AddAggregates(keyed, g.master, agg).info
      ensures AddAggregates(keyed, g.master, agg).info[n] == g.schema.info[n]
    {
      AddKeysKeeps(g.schema, g.master, group, n);
      AddAggregatesKeeps(keyed, g.master, agg, n);
    }
    forall i | 0 <= i < |agg|
      ensures agg[i].0 in AddAggregates(keyed, g.master, agg).info
      ensures AddAggregates(keyed, g.master, agg).info[agg[i].0] == AggregateField(g.master, agg[i].0, agg[i].1)
    {
      AddAggregatesDefine(keyed, g.master, agg, i);
    }
    forall k | k in group && k !in Keys(agg)
      ensures k in AddAggregates(keyed, g.master, agg).info
      ensures AddAggregates(keyed, g.master, agg).info[k] == FieldFor(g.master, k, PlainSeed)
    {
      AddKeysDefine(g.schema, g.master, group, k);
      AddAggregatesKeeps(keyed, g.master, agg, k);
    }
  }

  /** `system_fields` after grouping a fresh view by `g1` and then by `g2`:
      PHP's `+` keeps an element of `g2` only at positions at or beyond
      `|g1|`, so a new key at a smaller position is never recorded. */
  lemma RegroupSystemFields(master: Schema, g1: seq<string>, g2: seq<string>,
                            a1: seq<(string, AggSeed)>, a2: seq<(string, AggSeed)>)
    requires Distinct(g1)
    ensures var r := GroupBy(GroupBy(New(master), g1, a1), g2, a2);
      forall x :: x in Values(r.systemFields) <==> x in g1 || x in Drop(g2, |g1|)
  {
    var v1 := GroupBy(New(master), g1, a1);
    PlusOnLists([], g1);
    assert Plus(FromList([]), FromList(g1)) == Plus([], FromList(g1));
    var p1 := Plus([], FromList(g1));
    assert p1 == FromList(g1) by {
      assert KeySet<string>([]) == {};
      MissingNone(FromList(g1));
    }
    DistinctList(g1);
    UniqueFromOfDistinct(FromList(g1), {});
    assert v1.systemFields == FromList(g1);
    PlusOnLists(g1, g2);
    UniqueSpec(Plus(FromList(g1), FromList(g2)));
  }

  /** `system_fields` after grouping a fresh view by any `g1` and then by
      `g2`: the first grouping records `array_unique` of `g1`, which keeps
      each key at the position where it first occurs, and the second keeps
      an element of `g2` exactly when its position is not one of those. */
  lemma RegroupSystemFieldsAny(master: Schema, g1: seq<string>, g2: seq<string>,
                               a1: seq<(string, AggSeed)>, a2: seq<(string, AggSeed)>)
    ensures var kept := KeySet(Unique(FromList(g1)));
      var r := GroupBy(GroupBy(New(master), g1, a1), g2, a2);
      forall x :: x in Values(r.systemFields) <==>
        x in g1 || exists i :: 0 <= i < |g2| && i !in kept && g2[i] == x
  {
    var u1 := Unique(FromList(g1));
    var fg2 := FromList(g2);
    var v1 := GroupBy(New(master), g1, a1);
    assert Plus(New(master).systemFields, FromList(g1)) == FromList(g1) by {
      assert KeySet<string>([]) == {};
      MissingNone(FromList(g1));
    }
    assert v1.systemFields == u1;
    var m := Missing(fg2, KeySet(u1));
    UniqueSpec(FromList(g1));
    UniqueSpec(Plus(u1, fg2));
    ValuesConcat(u1, m);
    ValuesMissingOfList(g2, KeySet(u1));
  }

  lemma {:induction false} MissingNone<V>(b: PArray<V>)
    ensures Missing(b, {}) == b
  {
    if |b| > 0 {
      MissingNone(b[1..]);
      assert [b[0]] + b[1..] == b;
    }
  }

  lemma DistinctList<V>(s: seq<V>)
    requires Distinct(s)
    ensures DistinctValues(FromList(s))
  {
  }

  // ---------------------------------------------------------------- addGrouping

  /** The GROUP BY of addGrouping as written: `$el` is only assigned when the
      master has the key, so for a key the master lacks it still holds the
      field of the most recent key the master had, and only while no key has
      been found yet is the raw key name used. `last` is that field. */
  function GroupingAsWritten(master: Schema, group: seq<string>, last: Option<Expr>): (r: seq<Expr>)
    ensures |r| == |group|
    decreases |group|
  {
    if |group| == 0 then []
    else
      var el := if group[0] in master.info then Some(Column(master, group[0])) else last;
      [if el.Some? then el.value else Raw(group[0])] + GroupingAsWritten(master, group[1..], el)
  }

  /** The GROUP BY as evidently intended: each key groups by the master's
      field, or by the raw key name when the master has no such field. */
  function GroupKey(master: Schema, k: string): Expr {
    if k in master.info then Column(master, k) else Raw(k)
  }

  function Grouping(master: Schema, group: seq<string>): (r: seq<Expr>)
    ensures |r| == |group|
    ensures forall i :: 0 <= i < |group| ==> r[i] == GroupKey(master, group[i])
  {
    seq(|group|, i requires 0 <= i < |group| => GroupKey(master, group[i]))
  }

  /** When every key is a master field, or no key is missing after the first
      master field, the two readings agree. */
  lemma {:induction false} GroupingAgrees(master: Schema, group: seq<string>)
    requires forall i :: 0 <= i < |group| ==> group[i] in master.info
    ensures GroupingAsWritten(master, group, None) == Grouping(master, group)
  {
    GroupingAgreesFrom(master, group, None);
  }

  lemma {:induction false} GroupingAgreesFrom(master: Schema, group: seq<string>, last: Option<Expr>)
    requires forall i :: 0 <= i < |group| ==> group[i] in master.info
    ensures GroupingAsWritten(master, group, last) == Grouping(master, group)
    decreases |group|
  {
    if |group| > 0 {
      GroupingAgreesFrom(master, group[1..], Some(Column(master, group[0])));
      assert Grouping(master, group) == [GroupKey(master, group[0])] + Grouping(master, group[1..]);
    }
  }

  /** The stale `$el`: grouping by a master field and then by a key the
      master lacks groups twice by the master field. */
  lemma StaleGroupingKey()
    ensures var master := Schema("invoice", ["client_id"], map["client_id" := FieldInfo(None, false, false, "", "")], [], [], None);
      && GroupingAsWritten(master, ["client_id", "x"], None)
         == [FieldRef("invoice", "client_id"), FieldRef("invoice", "client_id")]
      && Grouping(master, ["client_id", "x"]) == [FieldRef("invoice", "client_id"), Raw("x")]
  {
  }

  // ---------------------------------------------------------------- initQueryConditions

  /** The HAVING name of a field: its `actual` column when truthy, else its name. */
  function HavingName(s: Schema, n: string): string
    requires n in s.info
  {
    if Truthy(s.info[n].actual) then s.info[n].actual else n
  }

  /** One row of an OR list: a string field name is replaced by the field
      itself; any other row is kept. Rows are not typecast. */
  function OrRow(s: Schema, row: Cond): (r: Result<Cond>)
    ensures (row.Eq? || row.Cmp?) && row.left.LName? ==> (r.Ok? <==> row.left.name in s.info)
    ensures !((row.Eq? || row.Cmp?) && row.left.LName?) ==> r == Ok(row)
    ensures r.Ok? && (row.Eq? || row.Cmp?) && row.left.LName? ==>
      r.value == row.(left := LExpr(Column(s, row.left.name)))
  {
    match row
    case Eq(LName(n), v) =>
      if n in s.info then Ok(Eq(LExpr(Column(s, n)), v)) else Err(NoSuchField(n))
    case Cmp(LName(n), op, v) =>
      if n in s.info then Ok(Cmp(LExpr(Column(s, n)), op, v)) else Err(NoSuchField(n))
    case _ => Ok(row)
  }

  function OrRows(s: Schema, rows: seq<Cond>): (r: Result<seq<Cond>>)
    ensures r.Ok? <==> forall i :: 0 <= i < |rows| ==> OrRow(s, rows[i]).Ok?
    ensures r.Ok? ==> |r.value| == |rows| && forall i :: 0 <= i < |rows| ==> r.value[i] == OrRow(s, rows[i]).value
  {
    if |rows| == 0 then Ok([])
    else
      match OrRow(s, rows[0])
      case Err(e) => Err(e)
      case Ok(x) =>
        match OrRows(s, rows[1..])
        case Err(e) =>
          assert exists i :: 0 <= i < |rows| && !OrRow(s, rows[i]).Ok? by {
            var j :| 0 <= j < |rows[1..]| && !OrRow(s, rows[1..][j]).Ok?;
            assert rows[1..][j] == rows[j + 1];
          }
          Err(e)
        case Ok(xs) =>
          var r := [x] + xs;
          assert forall i :: 1 <= i < |rows| ==> rows[i] == rows[1..][i - 1];
          Ok(r)
  }

  /** One condition of the view as a HAVING entry. */
  function HavingOf(s: Schema, c: Cond, tc: (FieldInfo, Value) -> Value): (r: Result<Cond>)
    ensures c.Whole? ==> r == Ok(c)
    ensures (c.Eq? || c.Cmp?) && c.left.LExpr? ==> r == Ok(c)
    ensures (c.Eq? || c.Cmp?) && c.left.LName? ==> (r.Ok? <==> c.left.name in s.info)
    ensures r.Ok? && (c.Eq? || c.Cmp?) && c.left.LName? ==>
      r.value == c.(left := LName(HavingName(s, c.left.name)), value := tc(s.info[c.left.name], c.value))
    ensures c.Or? ==> r == (match OrRows(s, c.rows) case Ok(rs) => Ok(Or(rs)) case Err(e) => Err(e))
  {
    match c
    case Or(rows) =>
      (match OrRows(s, rows)
       case Ok(rs) => Ok(Or(rs))
       case Err(e) => Err(e))
    case Whole(_) => Ok(c)
    case Eq(LName(n), v) =>
      if n in s.info then Ok(Eq(LName(HavingName(s, n)), tc(s.info[n], v))) else Err(NoSuchField(n))
    case Cmp(LName(n), op, v) =>
      if n in s.info then Ok(Cmp(LName(HavingName(s, n)), op, tc(s.info[n], v))) else Err(NoSuchField(n))
    case _ => Ok(c)
  }

  /** `initQueryConditions`: every condition of the view, in order, as HAVING. */
  function InitQueryConditions(s: Schema, conds: seq<Cond>, tc: (FieldInfo, Value) -> Value)
    : (r: Result<seq<Cond>>)
    ensures r.Ok? ==> |r.value| == |conds|
    decreases |conds|
  {
    if |conds| == 0 then Ok([])
    else
      var c :- HavingOf(s, conds[0], tc);
      var rest :- InitQueryConditions(s, conds[1..], tc);
      Ok([c] + rest)
  }

  /** initQueryConditions succeeds exactly when every condition does, and then
      HAVING entry `i` is condition `i` translated. */
  lemma {:induction false} InitQueryConditionsSpec(s: Schema, conds: seq<Cond>, tc: (FieldInfo, Value) -> Value)
    ensures InitQueryConditions(s, conds, tc).Ok? <==> forall i :: 0 <= i < |conds| ==> HavingOf(s, conds[i], tc).Ok?
    ensures InitQueryConditions(s, conds, tc).Ok? ==>
      forall i :: 0 <= i < |conds| ==> InitQueryConditions(s, conds, tc).value[i] == HavingOf(s, conds[i], tc).value
    decreases |conds|
  {
    if |conds| > 0 {
      InitQueryConditionsSpec(s, conds[1..], tc);
      var head := HavingOf(s, conds[0], tc);
      var rest := InitQueryConditions(s, conds[1..], tc);
      if head.Err? {
      } else if rest.Err? {
        var j :| 0 <= j < |conds[1..]| && !HavingOf(s, conds[1..][j], tc).Ok?;
        assert conds[1..][j] == conds[j + 1];
      } else {
        assert InitQueryConditions(s, conds, tc) == Ok([head.value] + rest.value);
        forall i | 1 <= i < |conds| ensures HavingOf(s, conds[i], tc) == HavingOf(s, conds[1..][i - 1], tc) {
          assert conds[i] == conds[1..][i - 1];
        }
      }
    }
  }

  // ---------------------------------------------------------------- setLimit / setOrder

  /** `setLimit(count, offset)` is forwarded to the master model. */
  function SetLimit(g: GroupView, count: int, offset: Option<int>): (r: GroupView)
    ensures r.master.limit == Some(Limit(count, offset))
    ensures r == g.(master := g.master.(limit := Some(Limit(count, offset))))
  {
    g.(master := g.master.(limit := Some(Limit(count, offset))))
  }

  /** `setOrder(field, desc)` is forwarded to the master model, whose order
      list gains the entry. */
  function SetOrder(g: GroupView, field: string, desc: bool): (r: GroupView)
    ensures r.master.order == g.master.order + [Order(field, desc)]
    ensures r == g.(master := g.master.(order := g.master.order + [Order(field, desc)]))
  {
    g.(master := g.master.(order := g.master.order + [Order(field, desc)]))
  }

  // ---------------------------------------------------------------- action

  /** only_fields, or else every field of the view. */
  function Available(g: GroupView): seq<string> {
    if |g.onlyFields| > 0 then g.onlyFields else g.schema.names
  }

  /** The names select projects: `array_unique(fields + system_fields)`. */
  function SelectNames(g: GroupView): seq<string> {
    Values(Unique(Plus(FromList(Available(g)), g.systemFields)))
  }

  /** The `select` action: the master's select without fields, the view's
      fields and system fields, the GROUP BY, and the view's own conditions
      as HAVING. */
  function Select(g: GroupView, tc: (FieldInfo, Value) -> Value): (r: Result<Query>)
    ensures r.Ok? ==> r.value.source == Table(g.master.table) && r.value.where == g.master.conditions
    ensures r.Ok? ==> r.value.order == g.master.order && r.value.limit == g.master.limit
    ensures r.Ok? ==> r.value.group == Grouping(g.master, g.group)
    ensures r.Ok? <==> (ProjectFields(g.schema, SelectNames(g)).Ok?
                        && InitQueryConditions(g.schema, g.schema.conditions, tc).Ok?)
    ensures r.Ok? ==> r.value.having == InitQueryConditions(g.schema, g.schema.conditions, tc).value
    ensures r.Ok? ==> r.value.fields == ProjectFields(g.schema, SelectNames(g)).value
  {
    var f :- ProjectFields(g.schema, SelectNames(g));
    var having :- InitQueryConditions(g.schema, g.schema.conditions, tc);
    Ok(BaseSelect(g.master).(fields := f, group := Grouping(g.master, g.group), having := having))
  }

  /** The grouped query inside `count`: the master's count query with its
      projection replaced by `1`, grouped like select. */
  function CountInner(g: GroupView): Query {
    CountQuery(g.master, "").(fields := [("", Raw("1"))], group := Grouping(g.master, g.group))
  }

  /** The `count` action: the number of rows of the grouped query. */
  function Count(g: GroupView): (q: Query)
    ensures q.source == Derived(Template("([]) der", [Sub(CountInner(g))]))
    ensures q.fields == [("", Raw("count(*)"))]
    ensures q.where == [] && q.having == [] && q.group == []
  {
    Query(Derived(Template("([]) der", [Sub(CountInner(g))])), [("", Raw("count(*)"))], [], [], [], [], None)
  }

  /** The query `count` wraps groups and filters like select: same table, same
      WHERE, same GROUP BY. It carries none of the view's own conditions, so a
      view with conditions counts groups that select filters out. */
  lemma CountMatchesSelect(g: GroupView, tc: (FieldInfo, Value) -> Value)
    requires Select(g, tc).Ok?
    ensures var inner := CountInner(g);
      var q := Select(g, tc).value;
      inner.source == q.source && inner.where == q.where && inner.group == q.group && inner.having == []
  {
  }

  /** `count` ignores the view's own conditions. */
  lemma CountIgnoresConditions(g: GroupView, conds: seq<Cond>)
    ensures Count(g.(schema := g.schema.(conditions := conds))) == Count(g)
  {
  }

  predicate Refused(mode: string) {
    mode == "insert" || mode == "update" || mode == "delete"
  }

  /** `action(mode, args)` of the view. `field` and `fx` call methods the
      class does not define. */
  function Action(g: GroupView, mode: string, args: seq<Arg>, tc: (FieldInfo, Value) -> Value)
    : (r: Result<Query>)
    ensures Refused(mode) ==> r == Err(UnsupportedAction(mode))
    ensures mode == "select" ==> r == Select(g, tc)
    ensures mode == "count" ==> r == Ok(Count(g))
    ensures mode == "field" ==>
      r == Err(if |args| == 0 || !args[0].AStr? then InvalidArgument else UndefinedMethod("getSubQuery"))
    ensures mode == "fx" ==> r == Err(UndefinedMethod("getSubAction"))
    ensures !Refused(mode) && mode !in ["select", "count", "field", "fx"] ==> r == Err(UnsupportedAction(mode))
    ensures r.Ok? ==> mode == "select" || mode == "count"
  {
    if Refused(mode) then Err(UnsupportedAction(mode))
    else if mode == "select" then Select(g, tc)
    else if mode == "count" then Ok(Count(g))
    else if mode == "field" then
      if |args| == 0 || !args[0].AStr? then Err(InvalidArgument)
      else Err(UndefinedMethod("getSubQuery"))
    else if mode == "fx" then Err(UndefinedMethod("getSubAction"))
    else Err(UnsupportedAction(mode))
  }

  /** A limit set on the view reaches the select query. */
  lemma LimitReachesSelect(g: GroupView, count: int, offset: Option<int>, tc: (FieldInfo, Value) -> Value)
    requires Select(g, tc).Ok?
    ensures Select(SetLimit(g, count, offset), tc).Ok?
    ensures Select(SetLimit(g, count, offset), tc).value.limit == Some(Limit(count, offset))
  {
  }

  /** An order set on the view reaches the select query, after the master's own. */
  lemma OrderReachesSelect(g: GroupView, field: string, desc: bool, tc: (FieldInfo, Value) -> Value)
    requires Select(g, tc).Ok?
    ensures Select(SetOrder(g, field, desc), tc).Ok?
    ensures Select(SetOrder(g, field, desc), tc).value.order == g.master.order + [Order(field, desc)]
  {
  }
}
