/** UnionModel: a read-only view that stitches N nested models ("branches")
    into one `UNION ALL` derived table. Each branch carries a mapping from view
    field names to templates over the branch's own fields; a field a branch
    lacks is filled with NULL. */
module Union {
  import opened Sql
  import Template

  /** The grouping spec: unset, a single key name, or a list of key names. */
  datatype Group = NoGroup | Key(name: string) | KeyList(names: seq<string>)

  /** A branch model: a plain model, or a UnionModel nested as a branch. */
  datatype Member = Plain(schema: Schema) | Nested(view: UnionView)

  datatype Branch = Branch(model: Member, mapping: map<string, string>)

  /** The view: its own fields (table alias `derivedTable` by default), its
      branches in addNestedModel order, its grouping spec and aggregates, and
      its only_fields restriction. An aggregate maps a field name to the
      template (such as `sum([])`) applied to that field in every branch. */
  datatype UnionView = UnionView(
    schema: Schema,
    union: seq<Branch>,
    group: Group,
    aggregate: seq<(string, string)>,
    onlyFields: seq<string>)

  const DefaultAlias: string := "derivedTable"

  function SchemaOf(m: Member): Schema {
    match m
    case Plain(s) => s
    case Nested(v) => v.schema
  }

  /** The value stored under `k` in a PHP string-keyed array (the first entry wins). */
  function Lookup<V>(kv: seq<(string, V)>, k: string): (r: Option<V>)
    ensures r.Some? <==> exists i :: 0 <= i < |kv| && kv[i].0 == k
    ensures r.Some? ==> (k, r.value) in kv
  {
    if |kv| == 0 then None
    else if kv[0].0 == k then Some(kv[0].1)
    else
      var r := Lookup(kv[1..], k);
      assert forall i :: 0 < i < |kv| ==> kv[i] == kv[1..][i - 1];
      r
  }

  function MapGet(mapping: map<string, string>, k: string): (r: Option<string>)
    ensures r.Some? <==> k in mapping
    ensures r.Some? ==> r.value == mapping[k]
  {
    if k in mapping then Some(mapping[k]) else None
  }

  // ---------------------------------------------------------------- getFieldExpr

  /** The branch's own field, or NULL when the branch lacks it; wrapped in the
      branch's mapping template when one is given. */
  function FieldExpr(m: Schema, field: string, tpl: Option<string>): (r: Expr)
    ensures tpl.None? && field in m.info ==> r == Column(m, field)
    ensures tpl.None? && field !in m.info ==> r == Null
    ensures tpl.Some? ==> r.Template? && r.template == tpl.value && |r.args| == 1
    ensures tpl.Some? ==> r.args[0] == (if field in m.info then Column(m, field) else Null)
  {
    var own := if field in m.info then Column(m, field) else Null;
    match tpl
    case None => own
    case Some(t) => Template(t, [own])
  }

  /** getFieldExpr as written. It is declared to return a Field under strict
      types, but its NULL and template paths build query expressions, which
      are not Fields: only a branch field used without a mapping passes the
      return type check; every other call raises a TypeError. */
  function FieldExprAsWritten(m: Schema, field: string, tpl: Option<string>): (r: Result<Expr>)
    ensures r.Ok? <==> field in m.info && tpl.None?
    ensures r.Err? ==> r.error == TypeMismatch
    ensures r.Ok? ==> r.value == Column(m, field)
  {
    if field in m.info && tpl.None? then Ok(Column(m, field)) else Err(TypeMismatch)
  }

  /** Wherever getFieldExpr as written returns, it returns what FieldExpr
      gives; it raises exactly where FieldExpr wraps a mapping template or
      falls back to NULL. */
  lemma FieldExprAgrees(m: Schema, field: string, tpl: Option<string>)
    ensures FieldExprAsWritten(m, field, tpl).Ok? ==> FieldExprAsWritten(m, field, tpl).value == FieldExpr(m, field, tpl)
    ensures FieldExprAsWritten(m, field, tpl).Err? ==>
      (tpl.Some? && FieldExpr(m, field, tpl).Template?) || (field !in m.info && FieldExpr(m, field, tpl) == Null)
  {
  }

  // ---------------------------------------------------------------- branch projection

  /** What one requested field becomes in a branch: `None` when it is not
      pushed into the branch at all. */
  function Resolve(u: UnionView, m: Schema, mapping: map<string, string>, field: string): Option<Expr> {
    if field !in u.schema.info then Some(Null)
    else
      var fi := u.schema.info[field];
      var agg := Lookup(u.aggregate, field);
      if fi.join || fi.neverPersist then None
      else if fi.expr.Some? && agg.None? then None
      else
        var fo := FieldExpr(m, field, MapGet(mapping, field));
        match agg
        case Some(tpl) => Some(Template(tpl, [fo]))
        case None => Some(fo)
  }

  /** The rules of Resolve, one per branch of the source. */
  lemma ResolveRules(u: UnionView, m: Schema, mapping: map<string, string>, field: string)
    ensures field !in u.schema.info ==> Resolve(u, m, mapping, field) == Some(Null)
    ensures field in u.schema.info && (u.schema.info[field].join || u.schema.info[field].neverPersist)
            ==> Resolve(u, m, mapping, field).None?
    ensures field in u.schema.info && u.schema.info[field].expr.Some? && Lookup(u.aggregate, field).None?
            ==> Resolve(u, m, mapping, field).None?
    ensures field in u.schema.info && !u.schema.info[field].join && !u.schema.info[field].neverPersist
            && Lookup(u.aggregate, field).Some?
            ==> Resolve(u, m, mapping, field)
                == Some(Template(Lookup(u.aggregate, field).value, [FieldExpr(m, field, MapGet(mapping, field))]))
    ensures field in u.schema.info && !u.schema.info[field].join && !u.schema.info[field].neverPersist
            && u.schema.info[field].expr.None? && Lookup(u.aggregate, field).None?
            ==> Resolve(u, m, mapping, field) == Some(FieldExpr(m, field, MapGet(mapping, field)))
  {
  }

  function IndexOf(xs: seq<string>, k: string): (i: nat)
    requires k in xs
    ensures i < |xs| && xs[i] == k
  {
    if xs[0] == k then 0 else 1 + IndexOf(xs[1..], k)
  }

  /** `$f[$k] = $v` on a PHP string-keyed array: replaces in place, or appends. */
  function Put(f: seq<(string, Expr)>, k: string, v: Expr): (r: seq<(string, Expr)>)
    requires Distinct(Keys(f))
    ensures Distinct(Keys(r))
    ensures k in Keys(f) ==> Keys(r) == Keys(f)
    ensures k !in Keys(f) ==> r == f + [(k, v)]
    ensures forall i :: 0 <= i < |r| ==> r[i] == (if r[i].0 == k then (k, v) else f[i])
  {
    if k in Keys(f) then
      var i := IndexOf(Keys(f), k);
      var r := f[i := (k, v)];
      assert Keys(r) == Keys(f);
      assert forall j :: 0 <= j < |f| && j != i ==> f[j].0 != k by {
        forall j | 0 <= j < |f| && j != i ensures f[j].0 != k {
          assert Keys(f)[j] == f[j].0 && Keys(f)[i] == k;
        }
      }
      r
    else
      var r := f + [(k, v)];
      assert Keys(r) == Keys(f) + [k];
      r
  }

  /** The projection `$f` of one branch for the requested `fields`, in order. */
  function Project(u: UnionView, m: Schema, mapping: map<string, string>, fields: seq<string>)
    : (r: seq<(string, Expr)>)
    ensures Distinct(Keys(r))
    ensures forall k :: k in Keys(r) <==> k in fields && Resolve(u, m, mapping, k).Some?
    ensures forall i :: 0 <= i < |r| ==> Resolve(u, m, mapping, r[i].0) == Some(r[i].1)
  {
    if |fields| == 0 then []
    else
      var p := Project(u, m, mapping, fields[..|fields| - 1]);
      var x := fields[|fields| - 1];
      assert fields == fields[..|fields| - 1] + [x];
      match Resolve(u, m, mapping, x)
      case None => p
      case Some(e) =>
        var r := Put(p, x, e);
        assert x !in Keys(p) ==> Keys(r) == Keys(p) + [x];
        r
  }

  /** NULL-fill: a requested field the view lacks is projected as NULL in every
      branch, rather than raising an error or dropping the row. */
  lemma NullFill(u: UnionView, m: Schema, mapping: map<string, string>, fields: seq<string>, field: string)
    requires field in fields && field !in u.schema.info
    ensures (field, Null) in Project(u, m, mapping, fields)
  {
    var r := Project(u, m, mapping, fields);
    assert field in Keys(r);
    var i :| 0 <= i < |r| && Keys(r)[i] == field;
    assert r[i] == (field, Null);
  }

  /** When every requested field is distinct and pushed into the branch, the
      branch projects exactly them, in argument order. */
  lemma {:induction false} ProjectKeepsOrder(u: UnionView, m: Schema, mapping: map<string, string>, fields: seq<string>)
    requires Distinct(fields)
    requires forall i :: 0 <= i < |fields| ==> Resolve(u, m, mapping, fields[i]).Some?
    ensures Keys(Project(u, m, mapping, fields)) == fields
  {
    if |fields| > 0 {
      var init := fields[..|fields| - 1];
      var x := fields[|fields| - 1];
      assert fields == init + [x];
      assert Distinct(init) by {
        forall i, j | 0 <= i < j < |init| ensures init[i] != init[j] {
          assert init[i] == fields[i] && init[j] == fields[j];
        }
      }
      assert forall i :: 0 <= i < |init| ==> init[i] == fields[i];
      ProjectKeepsOrder(u, m, mapping, init);
      assert x !in init;
      ResolvePushed(u, m, mapping, x);
      ProjectKeysStep(u, m, mapping, fields);
    }
  }

  /** Whether getSubQuery pushes a requested field into the branches at all.
      It depends on the view alone, never on the branch. */
  predicate Pushed(u: UnionView, field: string) {
    field !in u.schema.info
    || (var fi := u.schema.info[field];
        !fi.join && !fi.neverPersist && !(fi.expr.Some? && Lookup(u.aggregate, field).None?))
  }

  lemma ResolvePushed(u: UnionView, m: Schema, mapping: map<string, string>, field: string)
    ensures Resolve(u, m, mapping, field).Some? <==> Pushed(u, field)
  {
  }

  /** The requested fields the view pushes into its branches, in request order. */
  function PushedFields(u: UnionView, fields: seq<string>): (r: seq<string>)
    ensures forall k :: k in r <==> k in fields && Pushed(u, k)
  {
    if |fields| == 0 then []
    else
      var init := fields[..|fields| - 1];
      var x := fields[|fields| - 1];
      assert fields == init + [x];
      PushedFields(u, init) + (if Pushed(u, x) then [x] else [])
  }

  /** One more requested field adds its column at the end, unless it is not
      pushed or already projected. */
  lemma ProjectKeysStep(u: UnionView, m: Schema, mapping: map<string, string>, fields: seq<string>)
    requires |fields| > 0
    ensures var p := Keys(Project(u, m, mapping, fields[..|fields| - 1]));
      var x := fields[|fields| - 1];
      Keys(Project(u, m, mapping, fields))
        == if Pushed(u, x) && x !in p then p + [x] else p
  {
    var init := fields[..|fields| - 1];
    var x := fields[|fields| - 1];
    var p := Project(u, m, mapping, init);
    ResolvePushed(u, m, mapping, x);
    if Pushed(u, x) {
      var e := Resolve(u, m, mapping, x).value;
      assert Project(u, m, mapping, fields) == Put(p, x, e);
    }
  }

  /** With distinct requested fields, every branch projects exactly the
      pushed ones, in request order: the join, never-persisted and plain
      expression fields drop out and the rest keep their relative order. */
  lemma {:induction false} ProjectOrder(u: UnionView, m: Schema, mapping: map<string, string>, fields: seq<string>)
    requires Distinct(fields)
    ensures Keys(Project(u, m, mapping, fields)) == PushedFields(u, fields)
  {
    if |fields| > 0 {
      var init := fields[..|fields| - 1];
      var x := fields[|fields| - 1];
      assert fields == init + [x];
      assert Distinct(init) by {
        forall i, j | 0 <= i < j < |init| ensures init[i] != init[j] {
          assert init[i] == fields[i] && init[j] == fields[j];
        }
      }
      ProjectOrder(u, m, mapping, init);
      assert x !in init;
      ProjectKeysStep(u, m, mapping, fields);
    }
  }

  /** Any two branches project the same columns in the same order, whatever
      their models and mappings, so the UNION ALL lines its columns up. */
  lemma {:induction false} ProjectAligned(u: UnionView, m1: Schema, mp1: map<string, string>,
                                          m2: Schema, mp2: map<string, string>, fields: seq<string>)
    ensures Keys(Project(u, m1, mp1, fields)) == Keys(Project(u, m2, mp2, fields))
  {
    if |fields| > 0 {
      ProjectAligned(u, m1, mp1, m2, mp2, fields[..|fields| - 1]);
      ProjectKeysStep(u, m1, mp1, fields);
      ProjectKeysStep(u, m2, mp2, fields);
    }
  }

  // ---------------------------------------------------------------- grouping

  /** `$q->group($group)` with the raw grouping spec. */
  function GroupIdents(g: Group): (r: seq<Expr>)
    ensures g.NoGroup? ==> r == []
    ensures g.Key? ==> r == [Ident(g.name)]
    ensures g.KeyList? ==> |r| == |g.names| && forall i :: 0 <= i < |r| ==> r[i] == Ident(g.names[i])
  {
    match g
    case NoGroup => []
    case Key(n) => [Ident(n)]
    case KeyList(ns) => seq(|ns|, i requires 0 <= i < |ns| => Ident(ns[i]))
  }

  /** `if ($this->group)`: PHP truthiness of the grouping spec. */
  predicate Active(g: Group) {
    match g
    case NoGroup => false
    case Key(n) => Truthy(n)
    case KeyList(ns) => |ns| > 0
  }

  /** The keys of a list a branch can group by: those it has a mapping for or
      a field of that name, in order. */
  function GroupableKeys(ks: seq<string>, m: Schema, mapping: map<string, string>): (r: seq<string>)
    ensures forall k :: k in r <==> k in ks && (k in mapping || k in m.info)
    ensures (forall i :: 0 <= i < |ks| ==> ks[i] in mapping || ks[i] in m.info) ==> r == ks
  {
    if |ks| == 0 then []
    else (if ks[0] in mapping || ks[0] in m.info then [ks[0]] else []) + GroupableKeys(ks[1..], m, mapping)
  }

  /** One key: kept exactly when the branch maps it or has it. */
  lemma GroupableKeysOne(k: string, m: Schema, mapping: map<string, string>)
    ensures GroupableKeys([k], m, mapping) == if k in mapping || k in m.info then [k] else []
  {
    assert [k][1..] == [];
  }

  /** The keys are filtered one at a time, so the result keeps the keys'
      order and repeats: the filter of a joined list is the two filters joined. */
  lemma {:induction false} GroupableKeysConcat(ks1: seq<string>, ks2: seq<string>, m: Schema, mapping: map<string, string>)
    ensures GroupableKeys(ks1 + ks2, m, mapping) == GroupableKeys(ks1, m, mapping) + GroupableKeys(ks2, m, mapping)
    decreases |ks1|
  {
    if |ks1| == 0 {
      assert ks1 + ks2 == ks2;
    } else {
      assert (ks1 + ks2)[1..] == ks1[1..] + ks2;
      GroupableKeysConcat(ks1[1..], ks2, m, mapping);
      var h := if ks1[0] in mapping || ks1[0] in m.info then [ks1[0]] else [];
      var ra := GroupableKeys(ks1[1..], m, mapping);
      var rb := GroupableKeys(ks2, m, mapping);
      assert h + (ra + rb) == (h + ra) + rb;
    }
  }

  /** What a branch groups by for a key it can group by: the mapping
      template when it has one, else its own field. */
  function KeyExpr(k: string, m: Schema, mapping: map<string, string>): Expr
    requires k in mapping || k in m.info
  {
    if k in mapping then Raw(mapping[k]) else Column(m, k)
  }

  /** GROUP BY of one branch for a list of keys: a key the branch can neither
      map nor find among its fields is skipped. */
  function KeysGroup(ks: seq<string>, m: Schema, mapping: map<string, string>): (r: seq<Expr>)
    ensures var gk := GroupableKeys(ks, m, mapping);
      |r| == |gk| && forall i :: 0 <= i < |gk| ==> r[i] == KeyExpr(gk[i], m, mapping)
  {
    var gk := GroupableKeys(ks, m, mapping);
    seq(|gk|, i requires 0 <= i < |gk| => KeyExpr(gk[i], m, mapping))
  }

  /** The GROUP BY the view's grouping spec adds to one branch. */
  function BranchGroup(g: Group, m: Schema, mapping: map<string, string>): (r: seq<Expr>)
    ensures !Active(g) ==> r == []
    ensures Active(g) && g.Key? ==> r == [if g.name in mapping then Raw(mapping[g.name]) else Ident(g.name)]
    ensures Active(g) && g.KeyList? ==> r == KeysGroup(g.names, m, mapping)
  {
    if !Active(g) then []
    else match g
      case Key(n) => [if n in mapping then Raw(mapping[n]) else Ident(n)]
      case KeyList(ns) => KeysGroup(ns, m, mapping)
  }

  /** A string group key and the one-element list of it group a branch the
      same way through a mapping; without one, the string groups by the raw
      key name even where the branch has that field, while the list groups by
      the branch's field and skips a branch that lacks it. */
  lemma {:induction false} StringVersusListKey(n: string, m: Schema, mapping: map<string, string>)
    requires Truthy(n)
    ensures n in mapping ==>
      BranchGroup(Key(n), m, mapping) == BranchGroup(KeyList([n]), m, mapping) == [Raw(mapping[n])]
    ensures n !in mapping ==> BranchGroup(Key(n), m, mapping) == [Ident(n)]
    ensures n !in mapping && n in m.info ==> BranchGroup(KeyList([n]), m, mapping) == [Column(m, n)]
    ensures n !in mapping && n !in m.info ==> BranchGroup(KeyList([n]), m, mapping) == []
  {
    var gk := GroupableKeys([n], m, mapping);
    assert [n][1..] == [];
    assert GroupableKeys([n][1..], m, mapping) == [];
    var r := KeysGroup([n], m, mapping);
    assert BranchGroup(KeyList([n]), m, mapping) == r;
    if n in mapping || n in m.info {
      assert gk == [n];
      assert r == [KeyExpr(n, m, mapping)];
    } else {
      assert gk == [];
    }
  }

  // ---------------------------------------------------------------- getSubQuery

  /** The query of branch `i` for the requested `fields`. */
  function BranchQuery(u: UnionView, i: nat, fields: seq<string>): (q: Query)
    requires i < |u.union|
    ensures q.where == SchemaOf(u.union[i].model).conditions
    ensures q.fields == Project(u, SchemaOf(u.union[i].model), u.union[i].mapping, fields)
    ensures u.union[i].model.Plain? ==> q.source == Table(u.union[i].model.schema.table)
    ensures u.union[i].model.Plain? ==>
      q.group == BranchGroup(u.group, u.union[i].model.schema, u.union[i].mapping)
    ensures u.union[i].model.Nested? ==>
      q.source == Derived(SubQuery(u.union[i].model.view, fields))
    ensures u.union[i].model.Nested? ==>
      q.group == GroupIdents(u.union[i].model.view.group)
                 + BranchGroup(u.group, u.union[i].model.view.schema, u.union[i].mapping)
    decreases u, 0
  {
    var b := u.union[i];
    var m := SchemaOf(b.model);
    var f := Project(u, m, b.mapping, fields);
    var own := BranchGroup(u.group, m, b.mapping);
    match b.model
    case Plain(s) =>
      Query(Table(s.table), f, own, s.conditions, [], s.order, s.limit)
    case Nested(v) =>
      // The persistence selects from the nested view's table, which the
      // nested view's own derived table then replaces.
      Query(Derived(SubQuery(v, fields)), f, GroupIdents(v.group) + own,
            v.schema.conditions, [], v.schema.order, v.schema.limit)
  }

  function BranchQueries(u: UnionView, fields: seq<string>, k: nat): (r: seq<Expr>)
    requires k <= |u.union|
    ensures |r| == k
    ensures forall i :: 0 <= i < k ==> r[i] == Sub(BranchQuery(u, i, fields))
    decreases u, 1, k
  {
    if k == 0 then [] else BranchQueries(u, fields, k - 1) + [Sub(BranchQuery(u, k - 1, fields))]
  }

  /** The `UNION ALL` derived table over every branch, for the requested fields. */
  function SubQuery(u: UnionView, fields: seq<string>): (r: Expr)
    ensures r.Template? && r.template == Template.UnionTemplate(|u.union|)
    ensures |r.args| == |u.union| + 1
    ensures forall i :: 0 <= i < |u.union| ==> r.args[i] == Sub(BranchQuery(u, i, fields))
    ensures r.args[|u.union|] == Ident(u.schema.table)
    decreases u, 2
  {
    Template(Template.UnionTemplate(|u.union|),
             BranchQueries(u, fields, |u.union|) + [Ident(u.schema.table)])
  }

  /** Every positional slot `[i]` of the derived table's template names branch
      query `i`, and its one identifier slot names the table alias. */
  lemma SubQuerySlots(u: UnionView, fields: seq<string>)
    ensures var r := SubQuery(u, fields);
      && Template.Slots('[', ']', r.template) == Template.Range(0, |u.union|)
      && Template.Slots('{', '}', r.template) == [|u.union|]
      && (forall i :: 0 <= i < |u.union| ==> r.args[i].Sub?)
      && r.args[|u.union|] == Ident(u.schema.table)
  {
    Template.UnionTemplateSlots(|u.union|);
  }

  /** Every branch query of the derived table has the same columns, in the
      same order. */
  lemma BranchColumnsAlign(u: UnionView, fields: seq<string>, i: nat, j: nat)
    requires i < |u.union| && j < |u.union|
    ensures Keys(BranchQuery(u, i, fields).fields) == Keys(BranchQuery(u, j, fields).fields)
  {
    ProjectAligned(u, SchemaOf(u.union[i].model), u.union[i].mapping,
                   SchemaOf(u.union[j].model), u.union[j].mapping, fields);
  }

  // ---------------------------------------------------------------- getSubAction

  /** The action each branch runs under getSubAction: `count` with an alias,
      or `fx` with a function name, a field argument and an alias. */
  datatype SubAct = SubCount(alias: string) | SubFx(fn: string, field: Arg, alias: string)

  /** The query branch `i` contributes to getSubAction. The fx field argument
      goes through the branch mapping; a branch that is itself a UnionModel
      runs its own action (and ignores the alias). */
  function BranchAction(u: UnionView, i: nat, act: SubAct): (r: Result<Query>)
    requires i < |u.union|
    ensures act.SubCount? && u.union[i].model.Plain? ==>
      r == Ok(CountQuery(u.union[i].model.schema, act.alias))
    ensures act.SubFx? && !act.field.AStr? ==> r == Err(TypeMismatch)
    ensures act.SubFx? && act.field.AStr? && u.union[i].model.Plain? ==>
      r == Ok(FxQuery(u.union[i].model.schema, act.fn,
                      FieldExpr(u.union[i].model.schema, act.field.s, MapGet(u.union[i].mapping, act.field.s)),
                      act.alias))
    decreases u, 0
  {
    var b := u.union[i];
    var m := SchemaOf(b.model);
    match act
    case SubCount(alias) =>
      (match b.model
       case Plain(s) => Ok(CountQuery(s, alias))
       case Nested(v) => Action(v, "count", []))
    case SubFx(fn, field, alias) =>
      if !field.AStr? then Err(TypeMismatch)
      else
        var fe := FieldExpr(m, field.s, MapGet(b.mapping, field.s));
        match b.model
        case Plain(s) => Ok(FxQuery(s, fn, fe, alias))
        case Nested(v) => Action(v, "fx", [AStr(fn), AExpr(fe)])
  }

  function BranchActions(u: UnionView, act: SubAct, k: nat): (r: Result<seq<Expr>>)
    requires k <= |u.union|
    ensures r.Ok? ==> |r.value| == k
    decreases u, 1, k
  {
    if k == 0 then Ok([])
    else
      match BranchActions(u, act, k - 1)
      case Err(e) => Err(e)
      case Ok(prefix) =>
        match BranchAction(u, k - 1, act)
        case Err(e) => Err(e)
        case Ok(q) => Ok(prefix + [Sub(q)])
  }

  /** getSubAction: the same UNION ALL shape as getSubQuery, over each branch's
      own action query. */
  function SubAction(u: UnionView, act: SubAct): (r: Result<Expr>)
    ensures r.Ok? ==> r.value.Template? && r.value.template == Template.UnionTemplate(|u.union|)
    ensures r.Ok? ==> |r.value.args| == |u.union| + 1
    ensures r.Ok? ==> r.value.args[|u.union|] == Ident(u.schema.table)
    decreases u, 2
  {
    var qs :- BranchActions(u, act, |u.union|);
    Ok(Template(Template.UnionTemplate(|u.union|), qs + [Ident(u.schema.table)]))
  }

  /** Every one of the first `k` branches' actions succeeds. */
  predicate BranchesOk(u: UnionView, act: SubAct, k: nat)
    requires k <= |u.union|
  {
    forall i :: 0 <= i < k ==> BranchAction(u, i, act).Ok?
  }

  /** The branch loop succeeds exactly when every branch's action does. */
  lemma {:induction false} BranchActionsOk(u: UnionView, act: SubAct, k: nat)
    requires k <= |u.union|
    ensures BranchActions(u, act, k).Ok? <==> BranchesOk(u, act, k)
  {
    if k > 0 {
      BranchActionsOk(u, act, k - 1);
      var prev := BranchActions(u, act, k - 1);
      var last := BranchAction(u, k - 1, act);
      if prev.Err? {
        assert BranchActions(u, act, k).Err?;
        var j :| 0 <= j < k - 1 && !BranchAction(u, j, act).Ok?;
        assert !BranchesOk(u, act, k) by {
          assert 0 <= j < k;
        }
      } else if last.Err? {
        assert BranchActions(u, act, k).Err?;
        assert !BranchesOk(u, act, k) by {
          assert 0 <= k - 1 < k && !BranchAction(u, k - 1, act).Ok?;
        }
      } else {
        assert BranchActions(u, act, k).Ok?;
        assert BranchesOk(u, act, k) by {
          forall i | 0 <= i < k ensures BranchAction(u, i, act).Ok? {
            if i < k - 1 {
              assert BranchAction(u, i, act).Ok?;
            }
          }
        }
      }
    }
  }

  /** On success, slot `i` of the branch loop holds branch `i`'s action query. */
  lemma {:induction false} BranchActionsSpec(u: UnionView, act: SubAct, k: nat)
    requires k <= |u.union|
    requires BranchActions(u, act, k).Ok?
    ensures BranchesOk(u, act, k)
    ensures forall i :: 0 <= i < k ==> BranchActions(u, act, k).value[i] == Sub(BranchAction(u, i, act).value)
  {
    BranchActionsOk(u, act, k);
    if k > 0 {
      BranchActionsSpec(u, act, k - 1);
      var prev := BranchActions(u, act, k - 1).value;
      var last := BranchAction(u, k - 1, act).value;
      var r := BranchActions(u, act, k).value;
      assert r == prev + [Sub(last)];
      forall i | 0 <= i < k ensures r[i] == Sub(BranchAction(u, i, act).value) {
        if i < k - 1 {
          assert r[i] == prev[i];
        }
      }
    }
  }

  /** getSubAction succeeds exactly when every branch's action does, and then
      slot `i` of the UNION ALL holds branch `i`'s action query. */
  lemma SubActionSpec(u: UnionView, act: SubAct)
    ensures SubAction(u, act).Ok? <==> BranchesOk(u, act, |u.union|)
    ensures SubAction(u, act).Ok? ==>
      forall i :: 0 <= i < |u.union| ==> SubAction(u, act).value.args[i] == Sub(BranchAction(u, i, act).value)
  {
    BranchActionsOk(u, act, |u.union|);
    if SubAction(u, act).Ok? {
      BranchActionsSpec(u, act, |u.union|);
    }
  }

  // ---------------------------------------------------------------- action

  /** only_fields, or else every field, each looked up on the view; fields
      that are never persisted are dropped. */
  function PersistedFields(s: Schema, names: seq<string>): (r: Result<seq<string>>)
    ensures r.Ok? <==> forall i :: 0 <= i < |names| ==> names[i] in s.info
    ensures r.Ok? ==> forall n :: n in r.value <==> n in names && n in s.info && !s.info[n].neverPersist
  {
    if |names| == 0 then Ok([])
    else if names[0] !in s.info then Err(NoSuchField(names[0]))
    else
      var rest :- PersistedFields(s, names[1..]);
      Ok((if s.info[names[0]].neverPersist then [] else [names[0]]) + rest)
  }

  /** Dropping the never-persisted fields is a filter: on a concatenation it
      is the concatenation of the results, and on a single name it keeps or
      drops that name, so the result keeps the listed order. */
  lemma {:induction false} PersistedFieldsConcat(s: Schema, a: seq<string>, b: seq<string>)
    ensures PersistedFields(s, a + b).Ok? <==> PersistedFields(s, a).Ok? && PersistedFields(s, b).Ok?
    ensures PersistedFields(s, a + b).Ok? ==>
      PersistedFields(s, a + b).value == PersistedFields(s, a).value + PersistedFields(s, b).value
  {
    if |a| > 0 {
      PersistedFieldsConcat(s, a[1..], b);
      assert (a + b)[0] == a[0] && (a + b)[1..] == a[1..] + b;
      PersistedFieldsCons(s, a + b);
      PersistedFieldsCons(s, a);
      if a[0] in s.info && PersistedFields(s, a + b).Ok? {
        var h: seq<string> := if s.info[a[0]].neverPersist then [] else [a[0]];
        var ra, rb := PersistedFields(s, a[1..]).value, PersistedFields(s, b).value;
        assert PersistedFields(s, a + b).value == h + (ra + rb);
        assert PersistedFields(s, a).value == h + ra;
        assert h + (ra + rb) == (h + ra) + rb;
      }
    } else {
      assert a + b == b;
    }
  }

  /** On a single name, the filter keeps it unless it is never persisted,
      and fails on a name the model lacks. */
  lemma PersistedFieldsOne(s: Schema, n: string)
    ensures n !in s.info ==> PersistedFields(s, [n]) == Err(NoSuchField(n))
    ensures n in s.info ==> PersistedFields(s, [n]) == Ok(if s.info[n].neverPersist then [] else [n])
  {
    var none: seq<string> := [];
    assert [n][1..] == none;
    assert PersistedFields(s, none) == Ok(none);
    PersistedFieldsCons(s, [n]);
    assert none + none == none && [n] + none == [n];
  }

  lemma PersistedFieldsCons(s: Schema, names: seq<string>)
    requires |names| > 0
    ensures names[0] !in s.info ==> PersistedFields(s, names).Err?
    ensures names[0] in s.info ==>
      (PersistedFields(s, names).Ok? <==> PersistedFields(s, names[1..]).Ok?)
    ensures names[0] in s.info && PersistedFields(s, names).Ok? ==>
      PersistedFields(s, names).value
        == (if s.info[names[0]].neverPersist then [] else [names[0]]) + PersistedFields(s, names[1..]).value
  {
  }

  function ListedFields(u: UnionView): seq<string> {
    if |u.onlyFields| > 0 then u.onlyFields else u.schema.names
  }

  /** The persistence's `select` on the view itself: `args[0]` is a list of
      field names, `false` for no projection, or absent for the default. */
  function ParentSelect(u: UnionView, args: seq<Arg>): Result<Query> {
    var q := BaseSelect(u.schema);
    if |args| > 0 && args[0].ANames? then
      var f :- ProjectFields(u.schema, args[0].names);
      Ok(q.(fields := f))
    else if |args| > 0 && args[0].AFalse? then Ok(q)
    else
      var f :- ProjectFields(u.schema, ListedFields(u));
      Ok(q.(fields := f))
  }

  predicate Refused(mode: string) {
    mode == "insert" || mode == "update" || mode == "delete"
  }

  predicate Known(mode: string) {
    mode == "select" || mode == "count" || mode == "field" || mode == "fx"
  }

  /** `action(mode, args)` of the view. */
  function Action(u: UnionView, mode: string, args: seq<Arg>): (r: Result<Query>)
    ensures Refused(mode) ==> r == Err(UnsupportedAction(mode))
    ensures !Refused(mode) && PersistedFields(u.schema, ListedFields(u)).Err?
            ==> r == Err(PersistedFields(u.schema, ListedFields(u)).error)
    ensures !Refused(mode) && !Known(mode) && PersistedFields(u.schema, ListedFields(u)).Ok?
            ==> r == Err(UnsupportedAction(mode))
    ensures r.Ok? ==> Known(mode) && r.value.source.Derived?
    decreases u, 3
  {
    if Refused(mode) then Err(UnsupportedAction(mode))
    else
      var fields :- PersistedFields(u.schema, ListedFields(u));
      if mode == "select" then
        var sub := SubQuery(u, fields);
        var q :- ParentSelect(u, args);
        Ok(q.(source := Derived(sub),
              group := q.group + (if u.group.NoGroup? then [] else GroupIdents(u.group))))
      else if mode == "count" then
        var sub :- SubAction(u, SubCount("cnt"));
        Ok(FxQuery(u.schema, "sum", Ident("cnt"), "").(source := Derived(sub)))
      else if mode == "field" then
        if |args| == 0 || !args[0].AStr? then Err(InvalidArgument)
        else
          var sub := SubQuery(u, [args[0].s]);
          var q :- FieldQuery(u.schema, args[0].s);
          Ok(q.(source := Derived(sub)))
      else if mode == "fx" then
        if |args| < 2 || !args[0].AStr? then Err(InvalidArgument)
        else
          var sub :- SubAction(u, SubFx(args[0].s, args[1], "val"));
          Ok(FxQuery(u.schema, args[0].s, Ident("val"), "").(source := Derived(sub)))
      else Err(UnsupportedAction(mode))
  }

  /** `field` needs a string field name and `fx` a string function name and a
      field; once the fields resolve, anything else is rejected before any
      branch is asked. */
  lemma ActionArgErrors(u: UnionView, args: seq<Arg>)
    requires PersistedFields(u.schema, ListedFields(u)).Ok?
    ensures |args| == 0 || !args[0].AStr? ==> Action(u, "field", args) == Err(InvalidArgument)
    ensures |args| < 2 || !args[0].AStr? ==> Action(u, "fx", args) == Err(InvalidArgument)
  {
  }

  /** `action('select', args)`: the parent's select over the derived table of
      the persisted fields, grouped by the raw grouping spec. */
  lemma ActionSelect(u: UnionView, args: seq<Arg>)
    ensures var r := Action(u, "select", args);
      var fields := PersistedFields(u.schema, ListedFields(u));
      && (r.Ok? <==> fields.Ok? && ParentSelect(u, args).Ok?)
      && (r.Ok? ==>
            && r.value.source == Derived(SubQuery(u, fields.value))
            && r.value.fields == ParentSelect(u, args).value.fields
            && r.value.where == u.schema.conditions
            && r.value.group == (if u.group.NoGroup? then [] else GroupIdents(u.group)))
  {
  }

  /** `action('count')`: it succeeds exactly when every branch's count does,
      and then sums, as `cnt`, a UNION ALL whose slot `i` is branch `i`'s
      count. */
  lemma ActionCount(u: UnionView, args: seq<Arg>)
    ensures var r := Action(u, "count", args);
      && (r.Ok? <==> PersistedFields(u.schema, ListedFields(u)).Ok? && BranchesOk(u, SubCount("cnt"), |u.union|))
      && (r.Ok? ==>
            && r.value.fields == [("", Template("sum([])", [Ident("cnt")]))]
            && r.value.where == u.schema.conditions
            && r.value.source.Derived?
            && r.value.source.e.Template?
            && r.value.source.e.template == Template.UnionTemplate(|u.union|)
            && |r.value.source.e.args| == |u.union| + 1
            && (forall i :: 0 <= i < |u.union| ==>
                  r.value.source.e.args[i] == Sub(BranchAction(u, i, SubCount("cnt")).value))
            && r.value.source.e.args[|u.union|] == Ident(u.schema.table))
  {
    SubActionSpec(u, SubCount("cnt"));
    assert "sum" + "([])" == "sum([])";
  }

  /** `action('fx', [fn, field])`: it succeeds exactly when every branch's
      aggregate does, and then applies `fn` again to the `val` column of a
      UNION ALL whose slot `i` is branch `i`'s aggregate. */
  lemma ActionFx(u: UnionView, fn: string, field: Arg, rest: seq<Arg>)
    ensures var r := Action(u, "fx", [AStr(fn), field] + rest);
      var act := SubFx(fn, field, "val");
      && (r.Ok? <==> PersistedFields(u.schema, ListedFields(u)).Ok? && BranchesOk(u, act, |u.union|))
      && (r.Ok? ==>
            && r.value.fields == [("", Template(fn + "([])", [Ident("val")]))]
            && r.value.where == u.schema.conditions
            && r.value.source.Derived?
            && r.value.source.e.Template?
            && r.value.source.e.template == Template.UnionTemplate(|u.union|)
            && |r.value.source.e.args| == |u.union| + 1
            && (forall i :: 0 <= i < |u.union| ==>
                  r.value.source.e.args[i] == Sub(BranchAction(u, i, act).value))
            && r.value.source.e.args[|u.union|] == Ident(u.schema.table))
  {
    var args := [AStr(fn), field] + rest;
    assert args[0] == AStr(fn) && args[1] == field;
    SubActionSpec(u, SubFx(fn, field, "val"));
  }

  /** `action('field', [name])`: the view's field, selected from the derived
      table of that field alone; a name the view lacks fails. */
  lemma ActionField(u: UnionView, name: string, rest: seq<Arg>)
    ensures var r := Action(u, "field", [AStr(name)] + rest);
      && (r.Ok? <==> PersistedFields(u.schema, ListedFields(u)).Ok? && name in u.schema.info)
      && (r.Ok? ==>
            && r.value.source == Derived(SubQuery(u, [name]))
            && r.value.fields == [(name, Column(u.schema, name))]
            && r.value.where == u.schema.conditions)
  {
    assert ([AStr(name)] + rest)[0] == AStr(name);
  }

  // ---------------------------------------------------------------- groupBy

  /** An expression field as addExpression registers it. */
  function ExprField(e: Expr): FieldInfo {
    FieldInfo(Some(e), false, false, "", "")
  }

  /** `$field_object` at the top of an iteration for `field`: the view's own
      field when it has one, else whatever the previous iteration left. */
  function AggregateArg(s: Schema, field: string, last: Option<Expr>): (r: Option<Expr>)
    ensures field in s.info ==> r == Some(Column(s, field))
    ensures field !in s.info ==> r == last
  {
    if field in s.info then Some(Column(s, field)) else last
  }

  /** The aggregate template applied to `$field_object` (NULL when unset). */
  function AggregateExpr(tpl: string, arg: Option<Expr>): Expr {
    Template(tpl, [if arg.Some? then arg.value else Null])
  }

  /** The aggregate loop of groupBy, as written: each aggregate field is
      redefined as its template applied to `$field_object`. That variable is
      only assigned when the view has the field, so for a field the view
      lacks it still holds the previous iteration's expression field (or is
      unset, NULL, on the first iteration); and a stale value makes the loop
      call removeField on the missing field, which raises. `last` is the
      expression field the previous iteration added. */
  function DefineAggregates(s: Schema, agg: seq<(string, string)>, last: Option<Expr>): (r: Result<Schema>)
    requires s.Valid()
    ensures r.Ok? ==> r.value.Valid()
    ensures r.Ok? ==> r.value.table == s.table && r.value.conditions == s.conditions
    ensures r.Ok? ==> r.value.order == s.order && r.value.limit == s.limit
    decreases |agg|
  {
    if |agg| == 0 then Ok(s)
    else
      var arg := AggregateArg(s, agg[0].0, last);
      if arg.Some? && agg[0].0 !in s.info then Err(NoSuchField(agg[0].0))
      else
        var e := AggregateExpr(agg[0].1, arg);
        DefineAggregates(Define(s, agg[0].0, ExprField(e)), agg[1..], Some(e))
  }

  /** One iteration that does not raise: the state the rest of the loop starts from. */
  lemma DefineAggregatesStep(s: Schema, agg: seq<(string, string)>, last: Option<Expr>)
    requires s.Valid() && |agg| > 0
    requires !(AggregateArg(s, agg[0].0, last).Some? && agg[0].0 !in s.info)
    ensures var e := AggregateExpr(agg[0].1, AggregateArg(s, agg[0].0, last));
      DefineAggregates(s, agg, last) == DefineAggregates(Define(s, agg[0].0, ExprField(e)), agg[1..], Some(e))
  {
  }

  /** The aggregate loop keeps every field it started with and adds exactly
      the aggregate fields. */
  lemma {:induction false} DefineAggregatesNames(s: Schema, agg: seq<(string, string)>, last: Option<Expr>)
    requires s.Valid()
    requires DefineAggregates(s, agg, last).Ok?
    ensures forall n :: n in DefineAggregates(s, agg, last).value.info <==> n in s.info || n in Keys(agg)
    decreases |agg|
  {
    if |agg| > 0 {
      var e := AggregateExpr(agg[0].1, AggregateArg(s, agg[0].0, last));
      DefineAggregatesStep(s, agg, last);
      var s1 := Define(s, agg[0].0, ExprField(e));
      DefineAggregatesNames(s1, agg[1..], Some(e));
      KeysCons(agg);
    }
  }

  /** A field that is not an aggregate field keeps its definition. */
  lemma {:induction false} DefineAggregatesKeeps(s: Schema, agg: seq<(string, string)>, last: Option<Expr>, n: string)
    requires s.Valid()
    requires DefineAggregates(s, agg, last).Ok?
    requires n in s.info && n !in Keys(agg)
    ensures n in DefineAggregates(s, agg, last).value.info
    ensures DefineAggregates(s, agg, last).value.info[n] == s.info[n]
    decreases |agg|
  {
    if |agg| > 0 {
      var e := AggregateExpr(agg[0].1, AggregateArg(s, agg[0].0, last));
      DefineAggregatesStep(s, agg, last);
      var s1 := Define(s, agg[0].0, ExprField(e));
      KeysCons(agg);
      DefineAggregatesKeeps(s1, agg[1..], Some(e), n);
    }
  }

  /** Every aggregate field ends up an expression field. */
  lemma {:induction false} DefineAggregatesExprs(s: Schema, agg: seq<(string, string)>, last: Option<Expr>, n: string)
    requires s.Valid()
    requires DefineAggregates(s, agg, last).Ok?
    requires n in Keys(agg)
    ensures n in DefineAggregates(s, agg, last).value.info
    ensures DefineAggregates(s, agg, last).value.info[n].expr.Some?
    decreases |agg|
  {
    var e := AggregateExpr(agg[0].1, AggregateArg(s, agg[0].0, last));
    DefineAggregatesStep(s, agg, last);
    var s1 := Define(s, agg[0].0, ExprField(e));
    KeysCons(agg);
    if n in Keys(agg[1..]) {
      DefineAggregatesExprs(s1, agg[1..], Some(e), n);
    } else {
      DefineAggregatesKeeps(s1, agg[1..], Some(e), n);
    }
  }

  /** The one error the loop raises names an aggregate field the view lacks. */
  lemma {:induction false} DefineAggregatesError(s: Schema, agg: seq<(string, string)>, last: Option<Expr>)
    requires s.Valid()
    requires DefineAggregates(s, agg, last).Err?
    ensures var err := DefineAggregates(s, agg, last).error;
      err.NoSuchField? && err.name in Keys(agg) && err.name !in s.info
    decreases |agg|
  {
    if !(AggregateArg(s, agg[0].0, last).Some? && agg[0].0 !in s.info) {
      var e := AggregateExpr(agg[0].1, AggregateArg(s, agg[0].0, last));
      DefineAggregatesStep(s, agg, last);
      var s1 := Define(s, agg[0].0, ExprField(e));
      DefineAggregatesError(s1, agg[1..], Some(e));
      KeysCons(agg);
    }
  }

  /** Keys of a PHP array are distinct. */
  predicate UniqueKeys<V>(kv: seq<(string, V)>) {
    Distinct(Keys(kv))
  }

  /** Every key of `kv` is a field of `s`. */
  predicate AllDefined<V>(kv: seq<(string, V)>, s: Schema) {
    forall i :: 0 <= i < |kv| ==> kv[i].0 in s.info
  }

  /** The tail of an array with distinct keys has distinct keys, none of
      them the head's key. */
  lemma UniqueKeysTail<V>(kv: seq<(string, V)>)
    requires UniqueKeys(kv) && |kv| > 0
    ensures UniqueKeys(kv[1..])
    ensures forall j :: 0 <= j < |kv| - 1 ==> kv[1..][j].0 != kv[0].0
  {
    assert Keys(kv[1..]) == Keys(kv)[1..];
    forall j | 0 <= j < |kv| - 1 ensures kv[1..][j].0 != kv[0].0 {
      assert Keys(kv)[j + 1] != Keys(kv)[0];
    }
  }

  /** Redefining a field that is none of the keys leaves AllDefined unchanged. */
  lemma AllDefinedDefine<V>(kv: seq<(string, V)>, s: Schema, name: string, f: FieldInfo)
    requires s.Valid()
    requires forall j :: 0 <= j < |kv| ==> kv[j].0 != name
    ensures AllDefined(kv, Define(s, name, f)) <==> AllDefined(kv, s)
  {
  }

  lemma AllDefinedCons<V>(kv: seq<(string, V)>, s: Schema)
    requires |kv| > 0
    ensures AllDefined(kv, s) <==> kv[0].0 in s.info && AllDefined(kv[1..], s)
  {
    if kv[0].0 in s.info && AllDefined(kv[1..], s) {
      forall i | 0 < i < |kv| ensures kv[i].0 in s.info {
        assert kv[i] == kv[1..][i - 1];
      }
    }
  }

  /** The aggregate loop fails exactly when some aggregate field other than
      the first one is missing from the view (or the first is too, while an
      earlier expression field is still held). */
  lemma {:induction false} DefineAggregatesOk(s: Schema, agg: seq<(string, string)>, last: Option<Expr>)
    requires s.Valid() && UniqueKeys(agg) && |agg| > 0
    ensures DefineAggregates(s, agg, last).Ok?
            <==> (agg[0].0 in s.info || last.None?) && AllDefined(agg[1..], s)
    decreases |agg|
  {
    var field := agg[0].0;
    if !(AggregateArg(s, field, last).Some? && field !in s.info) {
      var e := AggregateExpr(agg[0].1, AggregateArg(s, field, last));
      DefineAggregatesStep(s, agg, last);
      var s1 := Define(s, field, ExprField(e));
      var tail := agg[1..];
      if |tail| > 0 {
        UniqueKeysTail(agg);
        DefineAggregatesOk(s1, tail, Some(e));
        AllDefinedDefine(tail, s, field, ExprField(e));
        AllDefinedCons(tail, s1);
      }
    }
  }

  /** The aggregate loop as evidently intended: each aggregate field's
      template is applied to that field of the view, or to NULL when the view
      lacks it, and nothing raises. */
  function IntendedAggregates(s: Schema, agg: seq<(string, string)>): (r: Schema)
    requires s.Valid()
    ensures r.Valid()
    ensures r.table == s.table && r.conditions == s.conditions
    ensures r.order == s.order && r.limit == s.limit
    decreases |agg|
  {
    if |agg| == 0 then s
    else
      var field := agg[0].0;
      var e := AggregateExpr(agg[0].1, if field in s.info then Some(Column(s, field)) else None);
      IntendedAggregates(Define(s, field, ExprField(e)), agg[1..])
  }

  /** With distinct aggregate fields, every aggregate field is bound to its
      own template over its own previous definition, never over another
      field's. */
  lemma {:induction false} IntendedAggregatesBind(s: Schema, agg: seq<(string, string)>, i: nat)
    requires s.Valid() && UniqueKeys(agg) && i < |agg|
    ensures var r := IntendedAggregates(s, agg);
      && agg[i].0 in r.info
      && r.info[agg[i].0].expr
         == Some(Template(agg[i].1, [if agg[i].0 in s.info then Column(s, agg[i].0) else Null]))
    decreases |agg|
  {
    if i == 0 {
      IntendedAggregatesHead(s, agg);
    } else {
      var field := agg[0].0;
      var e := AggregateExpr(agg[0].1, if field in s.info then Some(Column(s, field)) else None);
      var s1 := Define(s, field, ExprField(e));
      var tail := agg[1..];
      UniqueKeysTail(agg);
      assert IntendedAggregates(s, agg) == IntendedAggregates(s1, tail);
      assert agg[i] == tail[i - 1];
      assert agg[i].0 != field by {
        assert Keys(agg)[i] != Keys(agg)[0];
      }
      IntendedAggregatesBind(s1, tail, i - 1);
      DefineColumn(s, field, ExprField(e), agg[i].0);
    }
  }

  /** The first aggregate field keeps the definition its own iteration gave it. */
  lemma IntendedAggregatesHead(s: Schema, agg: seq<(string, string)>)
    requires s.Valid() && UniqueKeys(agg) && |agg| > 0
    ensures var r := IntendedAggregates(s, agg);
      && agg[0].0 in r.info
      && r.info[agg[0].0].expr
         == Some(Template(agg[0].1, [if agg[0].0 in s.info then Column(s, agg[0].0) else Null]))
  {
    var field := agg[0].0;
    var e := AggregateExpr(agg[0].1, if field in s.info then Some(Column(s, field)) else None);
    var s1 := Define(s, field, ExprField(e));
    UniqueKeysTail(agg);
    IntendedKeeps(s1, agg[1..], field);
  }

  /** Redefining one field leaves every other field's column as it was. */
  lemma DefineColumn(s: Schema, name: string, f: FieldInfo, n: string)
    requires s.Valid() && n != name
    ensures n in Define(s, name, f).info <==> n in s.info
    ensures n in s.info ==> Column(Define(s, name, f), n) == Column(s, n)
  {
  }

  /** A field that is not an aggregate field keeps its definition. */
  lemma {:induction false} IntendedKeeps(s: Schema, agg: seq<(string, string)>, n: string)
    requires s.Valid() && n in s.info
    requires forall j :: 0 <= j < |agg| ==> agg[j].0 != n
    ensures n in IntendedAggregates(s, agg).info
    ensures IntendedAggregates(s, agg).info[n] == s.info[n]
    decreases |agg|
  {
    if |agg| > 0 {
      var field := agg[0].0;
      var e := AggregateExpr(agg[0].1, if field in s.info then Some(Column(s, field)) else None);
      IntendedKeeps(Define(s, field, ExprField(e)), agg[1..], n);
    }
  }

  /** The stale `$field_object`: a second aggregate over a field the view
      lacks raises, where the intended loop binds it to NULL. */
  lemma StaleFieldObject()
    ensures var s := Schema(DefaultAlias, [], map[], [], [], None);
      var agg := [("a", "sum([])"), ("b", "max([])")];
      && DefineAggregates(s, agg, None) == Err(NoSuchField("b"))
      && IntendedAggregates(s, agg).info["b"].expr == Some(Template("max([])", [Null]))
  {
    var s := Schema(DefaultAlias, [], map[], [], [], None);
    var agg := [("a", "sum([])"), ("b", "max([])")];
    var ea := AggregateExpr("sum([])", None);
    var s1 := Define(s, "a", ExprField(ea));
    assert "b" !in s1.info;
    assert DefineAggregates(s, agg, None) == DefineAggregates(s1, agg[1..], Some(ea));
    assert Keys(agg) == ["a", "b"];
    IntendedAggregatesBind(s, agg, 1);
  }

  /** groupBy copies the raw spec onto every branch that is itself a
      UnionModel; other branches are not touched. */
  function Propagate(bs: seq<Branch>, g: Group, agg: seq<(string, string)>): (r: seq<Branch>)
    ensures |r| == |bs|
    ensures forall i :: 0 <= i < |bs| ==> r[i].mapping == bs[i].mapping
    ensures forall i :: 0 <= i < |bs| && bs[i].model.Plain? ==> r[i] == bs[i]
    ensures forall i :: 0 <= i < |bs| && bs[i].model.Nested? ==>
      r[i].model == Nested(bs[i].model.view.(group := g, aggregate := agg))
  {
    seq(|bs|, i requires 0 <= i < |bs| =>
      match bs[i].model
      case Plain(_) => bs[i]
      case Nested(v) => bs[i].(model := Nested(v.(group := g, aggregate := agg))))
  }

  /** When every aggregate field already exists on the view, the loop as
      written and the intended loop agree. */
  lemma {:induction false} AggregatesAgree(s: Schema, agg: seq<(string, string)>, last: Option<Expr>)
    requires s.Valid() && AllDefined(agg, s)
    ensures DefineAggregates(s, agg, last) == Ok(IntendedAggregates(s, agg))
    decreases |agg|
  {
    if |agg| > 0 {
      var field := agg[0].0;
      var e := AggregateExpr(agg[0].1, Some(Column(s, field)));
      DefineAggregatesStep(s, agg, last);
      var s1 := Define(s, field, ExprField(e));
      assert AllDefined(agg[1..], s1) by {
        forall i | 0 <= i < |agg[1..]| ensures agg[1..][i].0 in s1.info {
          assert agg[1..][i] == agg[i + 1];
        }
      }
      AggregatesAgree(s1, agg[1..], Some(e));
    }
  }

  /** The intended loop keeps every field it started with and adds exactly
      the aggregate fields. */
  lemma {:induction false} IntendedNames(s: Schema, agg: seq<(string, string)>)
    requires s.Valid()
    ensures forall n :: n in IntendedAggregates(s, agg).info <==> n in s.info || n in Keys(agg)
    decreases |agg|
  {
    if |agg| > 0 {
      var field := agg[0].0;
      var e := AggregateExpr(agg[0].1, if field in s.info then Some(Column(s, field)) else None);
      IntendedNames(Define(s, field, ExprField(e)), agg[1..]);
      KeysCons(agg);
    }
  }

  /** `groupBy(group, aggregate)` as written: the grouping spec and the
      aggregates are replaced (nothing is merged), every aggregate field
      becomes an expression field of the view through the as-written loop,
      and the spec is copied onto nested UnionModel branches. */
  function GroupByAsWritten(u: UnionView, g: Group, agg: seq<(string, string)>): (r: Result<UnionView>)
    requires u.schema.Valid()
    ensures r.Ok? ==> r.value.group == g && r.value.aggregate == agg
    ensures r.Ok? ==> r.value.schema.Valid() && r.value.onlyFields == u.onlyFields
    ensures r.Ok? ==> r.value.union == Propagate(u.union, g, agg)
    ensures r.Ok? <==> DefineAggregates(u.schema, agg, None).Ok?
    ensures r.Ok? ==> r.value.schema == DefineAggregates(u.schema, agg, None).value
  {
    var s :- DefineAggregates(u.schema, agg, None);
    Ok(u.(schema := s, group := g, aggregate := agg, union := Propagate(u.union, g, agg)))
  }

  /** With distinct aggregate fields, groupBy as written succeeds exactly when
      every aggregate field after the first already exists on the view. */
  lemma GroupByOk(u: UnionView, g: Group, agg: seq<(string, string)>)
    requires u.schema.Valid() && UniqueKeys(agg)
    ensures GroupByAsWritten(u, g, agg).Ok? <==> |agg| == 0 || AllDefined(agg[1..], u.schema)
  {
    if |agg| > 0 {
      DefineAggregatesOk(u.schema, agg, None);
    }
  }

  /** `groupBy(group, aggregate)` with the aggregate loop as evidently
      intended. It never raises, and wherever every aggregate field already
      exists on the view it is exactly the source's groupBy. */
  function GroupBy(u: UnionView, g: Group, agg: seq<(string, string)>): (r: UnionView)
    requires u.schema.Valid()
    ensures r.group == g && r.aggregate == agg
    ensures r.schema.Valid() && r.onlyFields == u.onlyFields
    ensures r.union == Propagate(u.union, g, agg)
    ensures r.schema == IntendedAggregates(u.schema, agg)
    ensures AllDefined(agg, u.schema) ==> GroupByAsWritten(u, g, agg) == Ok(r)
  {
    if AllDefined(agg, u.schema) then AggregatesAgree(u.schema, agg, None); GroupByIntended(u, g, agg)
    else GroupByIntended(u, g, agg)
  }

  function GroupByIntended(u: UnionView, g: Group, agg: seq<(string, string)>): UnionView
    requires u.schema.Valid()
  {
    u.(schema := IntendedAggregates(u.schema, agg), group := g, aggregate := agg,
       union := Propagate(u.union, g, agg))
  }

  /** After groupBy the view has its old fields plus the aggregate fields;
      each aggregate field is its template over the view's own field (or
      NULL), and every other field is kept. */
  lemma GroupByFields(u: UnionView, g: Group, agg: seq<(string, string)>)
    requires u.schema.Valid() && UniqueKeys(agg)
    ensures var s := GroupBy(u, g, agg).schema;
      forall n :: n in s.info <==> n in u.schema.info || n in Keys(agg)
    ensures var s := GroupBy(u, g, agg).schema;
      forall i :: 0 <= i < |agg| ==>
        (agg[i].0 in s.info
         && s.info[agg[i].0].expr
            == Some(Template(agg[i].1, [if agg[i].0 in u.schema.info then Column(u.schema, agg[i].0) else Null])))
    ensures var s := GroupBy(u, g, agg).schema;
      forall n :: n in u.schema.info && n !in Keys(agg) ==> n in s.info && s.info[n] == u.schema.info[n]
  {
    IntendedNames(u.schema, agg);
    forall i | 0 <= i < |agg|
      ensures var s := IntendedAggregates(u.schema, agg);
        agg[i].0 in s.info
        && s.info[agg[i].0].expr
           == Some(Template(agg[i].1, [if agg[i].0 in u.schema.info then Column(u.schema, agg[i].0) else Null]))
    {
      IntendedAggregatesBind(u.schema, agg, i);
    }
    forall n | n in u.schema.info && n !in Keys(agg)
      ensures var s := IntendedAggregates(u.schema, agg);
        n in s.info && s.info[n] == u.schema.info[n]
    {
      forall j | 0 <= j < |agg| ensures agg[j].0 != n {
        assert Keys(agg)[j] == agg[j].0;
      }
      IntendedKeeps(u.schema, agg, n);
    }
  }

  /** After a regroup, a field that only the OLD aggregate set made into an
      expression field is no longer pushed into the branches: getSubQuery
      skips expression fields that have no aggregate. */
  lemma RegroupDropsStaleAggregates(u: UnionView, g: Group, agg: seq<(string, string)>, m: Schema,
                                    mapping: map<string, string>, field: string)
    requires u.schema.Valid()
    requires field in Keys(u.aggregate) && field !in Keys(agg)
    requires field in u.schema.info && u.schema.info[field].expr.Some?
    ensures Resolve(GroupBy(u, g, agg), m, mapping, field).None?
  {
    forall j | 0 <= j < |agg| ensures agg[j].0 != field {
      assert Keys(agg)[j] == agg[j].0;
    }
    IntendedKeeps(u.schema, agg, field);
    var v := GroupBy(u, g, agg);
    assert v.aggregate == agg && field in v.schema.info && v.schema.info[field].expr.Some?;
    assert Lookup(agg, field).None?;
  }

  // ---------------------------------------------------------------- addCondition

  /** The arguments of addCondition: a single condition; `(field, value)`;
      `(field, op, value)`; or `(field, op, value, force_nested)`. */
  datatype CondArgs =
    | One(c: Cond)
    | Two(field: string, value: Value)
    | Three(field: string, op: string, value: Value)
    | Four(field: string, op: string, value: Value, force: bool)

  /** The condition the arguments denote, with `left` as its left side; the
      number of arguments decides the shape. */
  function Shape(a: CondArgs, left: Left): (c: Cond)
    requires !a.One?
    ensures a.Two? <==> c.Eq?
    ensures (c.Eq? || c.Cmp?) && c.left == left && c.value == a.value
    ensures !a.Two? ==> c.Cmp? && c.op == a.op
  {
    match a
    case Two(_, v) => Eq(left, v)
    case Three(_, op, v) => Cmp(left, op, v)
    case Four(_, op, v, _) => Cmp(left, op, v)
  }

  /** The fields of a branch model as template arguments (`$model->getFields()`). */
  function FieldArgs(s: Schema): (r: seq<Expr>)
    ensures |r| == |s.names|
  {
    seq(|s.names|, i requires 0 <= i < |s.names| =>
      if s.names[i] in s.info then Column(s, s.names[i]) else FieldRef(s.table, s.names[i]))
  }

  /** Whether addCondition keeps the condition on the view itself. */
  predicate OnView(u: UnionView, a: CondArgs) {
    a.One? || (a.field in u.schema.info && !(a.Four? && a.force))
  }

  /** The condition one branch receives: through the mapping when it has one
      for the field, else through its own field, else none. */
  function Routed(b: Branch, a: CondArgs): (r: Option<Cond>)
    requires !a.One?
    ensures r.Some? <==> a.field in b.mapping || a.field in SchemaOf(b.model).info
    ensures a.field in b.mapping ==>
      r == Some(Shape(a, LExpr(Template(b.mapping[a.field], FieldArgs(SchemaOf(b.model))))))
    ensures a.field !in b.mapping && a.field in SchemaOf(b.model).info ==>
      r == Some(Shape(a, LExpr(Column(SchemaOf(b.model), a.field))))
  {
    var s := SchemaOf(b.model);
    if a.field in b.mapping then Some(Shape(a, LExpr(Template(b.mapping[a.field], FieldArgs(s)))))
    else if a.field in s.info then Some(Shape(a, LExpr(Column(s, a.field))))
    else None
  }

  /** A branch after addCondition. A branch that is itself a UnionModel is
      handed an expression or field object as the field, which it can
      neither find among its fields nor in its mappings, so it is left as it
      is. */
  function RouteTo(b: Branch, a: CondArgs): (r: Branch)
    requires !a.One?
    ensures r.mapping == b.mapping
    ensures b.model.Nested? || Routed(b, a).None? ==> r == b
    ensures b.model.Plain? && Routed(b, a).Some? ==>
      r.model == Plain(b.model.schema.(conditions := b.model.schema.conditions + [Routed(b, a).value]))
  {
    match b.model
    case Nested(_) => b
    case Plain(s) =>
      match Routed(b, a)
      case None => b
      case Some(c) => b.(model := Plain(s.(conditions := s.conditions + [c])))
  }

  /** `addCondition(...)`. */
  function AddCondition(u: UnionView, a: CondArgs): (r: UnionView)
    ensures OnView(u, a) ==> r.union == u.union
    ensures OnView(u, a) && a.One? ==> r.schema.conditions == u.schema.conditions + [a.c]
    ensures OnView(u, a) && !a.One? ==>
      r.schema.conditions == u.schema.conditions + [Shape(a, LName(a.field))]
    ensures !OnView(u, a) ==> r.schema == u.schema && |r.union| == |u.union|
    ensures !OnView(u, a) ==> forall i :: 0 <= i < |u.union| ==> r.union[i] == RouteTo(u.union[i], a)
    ensures r.group == u.group && r.aggregate == u.aggregate && r.onlyFields == u.onlyFields
  {
    if OnView(u, a) then
      var c := if a.One? then a.c else Shape(a, LName(a.field));
      u.(schema := u.schema.(conditions := u.schema.conditions + [c]))
    else
      u.(union := seq(|u.union|, i requires 0 <= i < |u.union| => RouteTo(u.union[i], a)))
  }

  /** A condition routed to the branches adds at most one condition to each
      plain branch, and exactly one to those that map or own the field. */
  lemma RoutedConditionCount(u: UnionView, a: CondArgs, i: nat)
    requires !OnView(u, a) && i < |u.union| && u.union[i].model.Plain?
    ensures AddCondition(u, a).union[i].model.Plain?
    ensures var before := u.union[i].model.schema.conditions;
      var after := AddCondition(u, a).union[i].model.schema.conditions;
      && after[..|before|] == before
      && |after| == |before| + (if a.field in u.union[i].mapping || a.field in u.union[i].model.schema.info then 1 else 0)
  {
  }
}
