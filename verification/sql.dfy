/** The query-description vocabulary shared by both report views, and the thin
    slice of the data-access layer (a base model and its persistence) that the
    views consume. Nothing here renders SQL: a query is an AST, and rendering,
    quoting and execution belong to the query builder, which is not part of
    this model. */
module Sql {

  datatype Option<+T> = None | Some(value: T)

  /** Exceptions a view raises itself, or lets through from its collaborators. */
  datatype Error =
    | UnsupportedAction(mode: string)   // insert / update / delete, or an unknown mode
    | InvalidArgument                   // action(field) or action(fx) without a string argument
    | NoSuchField(name: string)         // getField / removeField on a name the model lacks
    | UndefinedMethod(name: string)     // a call to a method the class does not define
    | TypeMismatch                      // PHP TypeError: a non-string where a string is declared

  datatype Result<+T> = Ok(value: T) | Err(error: Error) {
    predicate IsFailure() {
      Err?
    }

    function PropagateFailure<U>(): Result<U>
      requires Err?
    {
      Err(error)
    }

    function Extract(): T
      requires Ok?
    {
      value
    }
  }

  /** A literal condition value, as handed to addCondition. */
  datatype Value = VStr(s: string) | VInt(i: int) | VNull

  /** An expression tree. `Raw(t)` is `expr(t)` with no arguments, `Template(t, args)`
      is `expr(t, args)`, `Ident(n)` is a plain identifier (a string handed to
      `group()` or `table()`, or `expr('{}', [n])`), and `Sub(q)` is a query used
      as an argument of a larger expression. */
  datatype Expr =
    | Null
    | FieldRef(owner: string, name: string)
    | Template(template: string, args: seq<Expr>)
    | Raw(text: string)
    | Ident(name: string)
    | Sub(q: Query)

  /** The left side of a condition: a field name still to be resolved, or an expression. */
  datatype Left = LName(name: string) | LExpr(e: Expr)

  /** A condition entry of one, two or three components. A one-component entry
      holds either an OR list of rows or a ready expression; a two-component
      entry `[field, value]` means equality. */
  datatype Cond =
    | Or(rows: seq<Cond>)
    | Whole(e: Expr)
    | Eq(left: Left, value: Value)
    | Cmp(left: Left, op: string, value: Value)

  /** A positional action argument: a string, a list of field names, `false`,
      or an expression object. */
  datatype Arg = AStr(s: string) | ANames(names: seq<string>) | AFalse | AExpr(e: Expr)

  datatype Source = Table(name: string) | Derived(e: Expr)

  datatype Order = Order(field: string, desc: bool)

  datatype Limit = Limit(count: int, offset: Option<int>)

  /** A query: its table source, projected `(alias, expression)` pairs (alias ""
      means none), GROUP BY list, WHERE and HAVING lists, ORDER BY and LIMIT. */
  datatype Query = Query(
    source: Source,
    fields: seq<(string, Expr)>,
    group: seq<Expr>,
    where: seq<Cond>,
    having: seq<Cond>,
    order: seq<Order>,
    limit: Option<Limit>)

  /** What a model knows about one of its fields. `expr` is `Some` for an
      expression field; `actual` is the column name ("" when unset). */
  datatype FieldInfo = FieldInfo(
    expr: Option<Expr>,
    join: bool,
    neverPersist: bool,
    actual: string,
    typ: string)

  /** A model: its table, its fields in declaration order with their
      definitions, and the conditions, order and limit set on it. */
  datatype Schema = Schema(
    table: string,
    names: seq<string>,
    info: map<string, FieldInfo>,
    conditions: seq<Cond>,
    order: seq<Order>,
    limit: Option<Limit>)
  {
    /** Field names are listed once each, and exactly the defined fields are listed. */
    ghost predicate Valid() {
      && Distinct(names)
      && (forall i :: 0 <= i < |names| ==> names[i] in info)
      && (forall n :: n in info ==> n in names)
    }
  }

  /** PHP truthiness of a string: "" and "0" are false. */
  predicate Truthy(s: string) {
    s != "" && s != "0"
  }

  /** The keys of a string-keyed PHP array (an alias list, an aggregate map), in order. */
  function Keys<V>(kv: seq<(string, V)>): (r: seq<string>)
    ensures |r| == |kv| && forall i :: 0 <= i < |kv| ==> r[i] == kv[i].0
  {
    seq(|kv|, i requires 0 <= i < |kv| => kv[i].0)
  }

  lemma KeysCons<V>(kv: seq<(string, V)>)
    requires |kv| > 0
    ensures forall n :: n in Keys(kv) <==> n == kv[0].0 || n in Keys(kv[1..])
  {
    assert Keys(kv) == [kv[0].0] + Keys(kv[1..]);
  }

  /** No element is listed twice. */
  predicate Distinct<T(==)>(xs: seq<T>) {
    forall i, j :: 0 <= i < j < |xs| ==> xs[i] != xs[j]
  }

  /** `xs` without any occurrence of `x`. */
  function Without(xs: seq<string>, x: string): (r: seq<string>)
    ensures forall y :: y in r <==> y in xs && y != x
    ensures |r| <= |xs|
  {
    if |xs| == 0 then []
    else (if xs[0] == x then [] else [xs[0]]) + Without(xs[1..], x)
  }

  lemma WithoutDistinct(xs: seq<string>, x: string)
    requires Distinct(xs)
    ensures Distinct(Without(xs, x))
  {
    if |xs| > 0 {
      WithoutDistinct(xs[1..], x);
      var t := Without(xs[1..], x);
      assert forall k :: 0 <= k < |t| ==> t[k] in xs[1..];
      if xs[0] != x {
        assert xs[0] !in xs[1..];
        assert xs[0] !in t;
        var r := [xs[0]] + t;
        assert forall i, j :: 0 <= i < j < |r| ==> r[i] != r[j] by {
          forall i, j | 0 <= i < j < |r| ensures r[i] != r[j] {
            if i == 0 { assert r[j] == t[j-1]; assert t[j-1] in t; }
            else { assert r[i] == t[i-1] && r[j] == t[j-1]; }
          }
        }
      }
    }
  }

  /** Removes `name` (if present) and adds it back as the last field with
      definition `f`: the base model's removeField followed by addField. */
  function Define(s: Schema, name: string, f: FieldInfo): (r: Schema)
    requires s.Valid()
    ensures r.Valid()
    ensures name in r.info && r.info[name] == f
    ensures forall n :: n != name ==> (n in r.info <==> n in s.info)
    ensures forall n :: n != name && n in s.info ==> r.info[n] == s.info[n]
    ensures |r.names| > 0 && r.names[|r.names| - 1] == name
    ensures r.table == s.table && r.conditions == s.conditions
    ensures r.order == s.order && r.limit == s.limit
  {
    WithoutDistinct(s.names, name);
    var w := Without(s.names, name);
    forall i | 0 <= i < |w| ensures w[i] in s.names && w[i] != name {
      assert w[i] in w;
    }
    var ns := w + [name];
    assert forall i :: 0 <= i < |ns| ==> ns[i] in s.info[name := f] by {
      forall i | 0 <= i < |ns| ensures ns[i] in s.info[name := f] {
        if i < |w| { assert w[i] in s.names; }
      }
    }
    assert name !in w;
    assert Distinct(ns) by {
      forall i, j | 0 <= i < j < |ns| ensures ns[i] != ns[j] {
        if j == |w| { assert ns[i] == w[i]; assert w[i] in w; }
        else { assert ns[i] == w[i] && ns[j] == w[j]; }
      }
    }
    s.(names := ns, info := s.info[name := f])
  }

  lemma {:induction false} WithoutAbsent(xs: seq<string>, x: string)
    requires x !in xs
    ensures Without(xs, x) == xs
  {
    if |xs| > 0 {
      WithoutAbsent(xs[1..], x);
      assert [xs[0]] + xs[1..] == xs;
    }
  }

  /** Defining a field the model does not have yet appends it, and leaves
      every other field where it was. */
  lemma DefineFresh(s: Schema, name: string, f: FieldInfo)
    requires s.Valid() && name !in s.info
    ensures Define(s, name, f) == s.(names := s.names + [name], info := s.info[name := f])
  {
    assert name !in s.names;
    WithoutAbsent(s.names, name);
  }

  /** The reference a query uses for a defined field: its expression for an
      expression field, otherwise the field itself. */
  function Column(s: Schema, name: string): Expr
    requires name in s.info
  {
    match s.info[name].expr
    case Some(e) => e
    case None => FieldRef(s.table, name)
  }

  /** The persistence's `action('select', [false])`: the model's table, its
      conditions as WHERE, its order and limit, and no projection. */
  function BaseSelect(s: Schema): (q: Query)
    ensures q.source == Table(s.table) && q.fields == [] && q.group == [] && q.having == []
    ensures q.where == s.conditions && q.order == s.order && q.limit == s.limit
  {
    Query(Table(s.table), [], [], s.conditions, [], s.order, s.limit)
  }

  /** The persistence's projection of named fields (initQueryFields): each name
      must be a field of the model; never-persisted fields are not selected. */
  function ProjectFields(s: Schema, names: seq<string>): (r: Result<seq<(string, Expr)>>)
    ensures r.Ok? <==> forall i :: 0 <= i < |names| ==> names[i] in s.info
    ensures r.Ok? ==> |r.value| <= |names|
    ensures r.Ok? ==> forall k :: 0 <= k < |r.value| ==>
      r.value[k].0 in names && r.value[k].0 in s.info && !s.info[r.value[k].0].neverPersist
      && r.value[k].1 == Column(s, r.value[k].0)
  {
    if |names| == 0 then Ok([])
    else if names[0] !in s.info then Err(NoSuchField(names[0]))
    else
      match ProjectFields(s, names[1..])
      case Err(e) => Err(e)
      case Ok(rest) =>
        Ok((if s.info[names[0]].neverPersist then [] else [(names[0], Column(s, names[0]))]) + rest)
  }

  lemma ProjectFieldsCons(s: Schema, names: seq<string>)
    requires |names| > 0
    ensures names[0] !in s.info ==> ProjectFields(s, names) == Err(NoSuchField(names[0]))
    ensures names[0] in s.info ==>
      (ProjectFields(s, names).Ok? <==> ProjectFields(s, names[1..]).Ok?)
    ensures names[0] in s.info && ProjectFields(s, names).Ok? ==>
      ProjectFields(s, names).value
        == (if s.info[names[0]].neverPersist then [] else [(names[0], Column(s, names[0]))])
           + ProjectFields(s, names[1..]).value
  {
  }

  /** The projection works name by name: on two lists joined it succeeds
      exactly when it does on both, and projects the two results joined, so
      every listed persisted field is projected, in the listed order. */
  lemma {:induction false} ProjectFieldsConcat(s: Schema, a: seq<string>, b: seq<string>)
    ensures ProjectFields(s, a + b).Ok? <==> ProjectFields(s, a).Ok? && ProjectFields(s, b).Ok?
    ensures ProjectFields(s, a + b).Ok? ==>
      ProjectFields(s, a + b).value == ProjectFields(s, a).value + ProjectFields(s, b).value
  {
    if |a| > 0 {
      ProjectFieldsConcat(s, a[1..], b);
      assert (a + b)[0] == a[0] && (a + b)[1..] == a[1..] + b;
      ProjectFieldsCons(s, a + b);
      ProjectFieldsCons(s, a);
      if a[0] in s.info && ProjectFields(s, a + b).Ok? {
        var h: seq<(string, Expr)> := if s.info[a[0]].neverPersist then [] else [(a[0], Column(s, a[0]))];
        var ra, rb := ProjectFields(s, a[1..]).value, ProjectFields(s, b).value;
        assert ProjectFields(s, a + b).value == h + (ra + rb);
        assert ProjectFields(s, a).value == h + ra;
        assert h + (ra + rb) == (h + ra) + rb;
      }
    } else {
      assert a + b == b;
    }
  }

  /** A single name is projected as its column unless it is never persisted;
      a name the model lacks raises. */
  lemma ProjectFieldsOne(s: Schema, n: string)
    ensures n !in s.info ==> ProjectFields(s, [n]) == Err(NoSuchField(n))
    ensures n in s.info ==>
      ProjectFields(s, [n]) == Ok(if s.info[n].neverPersist then [] else [(n, Column(s, n))])
  {
    var none: seq<string> := [];
    var empty: seq<(string, Expr)> := [];
    assert [n][1..] == none;
    assert ProjectFields(s, none) == Ok(empty);
    ProjectFieldsCons(s, [n]);
    assert empty + empty == empty;
    if n in s.info {
      assert [(n, Column(s, n))] + empty == [(n, Column(s, n))];
    }
  }

  /** The persistence's `action('count', ...)`: the model's table and
      conditions, projecting `count(*)` under `alias`. */
  function CountQuery(s: Schema, alias: string): (q: Query)
    ensures q.source == Table(s.table) && q.where == s.conditions
    ensures q.fields == [(alias, Raw("count(*)"))] && q.group == [] && q.having == []
  {
    Query(Table(s.table), [(alias, Raw("count(*)"))], [], s.conditions, [], [], None)
  }

  /** The persistence's `action('fx', [fn, arg, 'alias' => alias])`: the
      aggregate `fn([])` applied to `arg`, projected under `alias`. */
  function FxQuery(s: Schema, fn: string, arg: Expr, alias: string): (q: Query)
    ensures q.source == Table(s.table) && q.where == s.conditions
    ensures q.fields == [(alias, Template(fn + "([])", [arg]))] && q.group == []
  {
    Query(Table(s.table), [(alias, Template(fn + "([])", [arg]))], [], s.conditions, [], [], None)
  }

  /** The persistence's `action('field', [name])`: the one named field. */
  function FieldQuery(s: Schema, name: string): (r: Result<Query>)
    ensures r.Ok? <==> name in s.info
    ensures r.Ok? ==> r.value.fields == [(name, Column(s, name))] && r.value.where == s.conditions
  {
    if name in s.info then
      Ok(Query(Table(s.table), [(name, Column(s, name))], [], s.conditions, [], s.order, s.limit))
    else Err(NoSuchField(name))
  }
}
