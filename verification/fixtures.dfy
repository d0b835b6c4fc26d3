/** The models the repository's tests are written against, as concrete
    inputs: invoices and payments, the Transaction2 union over them (invoice
    amounts negated through the mapping `-[]`), and a GroupModel over invoices.
    Each lemma states the query shape a test expects. */
module Fixtures {
  import opened Sql
  import opened Union
  import Template
  import Group
  import PhpArray

  function Plain(typ: string): FieldInfo {
    FieldInfo(None, false, false, "", typ)
  }

  const Invoice: Schema := Schema("invoice", ["name", "client_id", "amount"],
    map["name" := Plain(""), "client_id" := Plain(""), "amount" := Plain("money")], [], [], None)

  const Payment: Schema := Schema("payment", ["name", "client_id", "amount"],
    map["name" := Plain(""), "client_id" := Plain(""), "amount" := Plain("money")], [], [], None)

  const Transaction2: UnionView := UnionView(
    Schema(DefaultAlias, ["name", "amount"], map["name" := Plain(""), "amount" := Plain("money")], [], [], None),
    [Branch(Member.Plain(Invoice), map["amount" := "-[]"]), Branch(Member.Plain(Payment), map[])],
    NoGroup, [], [])

  /** A branch projection of two distinct fields that are both pushed into
      the branch, read off the rules for one field. */
  lemma ProjectPair(u: UnionView, m: Schema, mapping: map<string, string>, a: string, b: string)
    requires a != b
    requires Resolve(u, m, mapping, a).Some? && Resolve(u, m, mapping, b).Some?
    ensures Project(u, m, mapping, [a, b])
            == [(a, Resolve(u, m, mapping, a).value), (b, Resolve(u, m, mapping, b).value)]
  {
    ProjectKeepsOrder(u, m, mapping, [a, b]);
    var r := Project(u, m, mapping, [a, b]);
    assert Keys(r) == [a, b];
    assert r[0].0 == a && r[1].0 == b;
  }

  /** getFieldExpr on the invoice branch: the field, the mapped field, and
      NULL under the mapping for a field the branch lacks. */
  lemma FieldExprExamples()
    ensures FieldExpr(Invoice, "amount", None) == FieldRef("invoice", "amount")
    ensures FieldExpr(Invoice, "amount", Some("-[]")) == Template("-[]", [FieldRef("invoice", "amount")])
    ensures FieldExpr(Invoice, "blah", Some("-[]")) == Template("-[]", [Null])
  {
  }

  /** getFieldExpr as written returns the plain invoice field, but raises a
      TypeError on the two calls above that go through the Transaction2
      mapping `-[]`, and on a missing field without a mapping: neither a
      template nor the NULL fallback passes the declared Field return type. */
  lemma MappedFieldRaises()
    ensures FieldExprAsWritten(Invoice, "amount", None) == Ok(FieldRef("invoice", "amount"))
    ensures FieldExprAsWritten(Invoice, "amount", Some("-[]")) == Err(TypeMismatch)
    ensures FieldExprAsWritten(Invoice, "blah", Some("-[]")) == Err(TypeMismatch)
    ensures FieldExprAsWritten(Invoice, "blah", None) == Err(TypeMismatch)
  {
  }

  /** The invoice branch of `getSubQuery(['name', 'amount'])` projects the
      negated amount. */
  lemma InvoiceBranch()
    ensures BranchQuery(Transaction2, 0, ["name", "amount"])
      == Query(Table("invoice"),
           [("name", FieldRef("invoice", "name")), ("amount", Template("-[]", [FieldRef("invoice", "amount")]))],
           [], [], [], [], None)
  {
    ProjectPair(Transaction2, Invoice, map["amount" := "-[]"], "name", "amount");
  }

  /** The payment branch projects the plain amount. */
  lemma PaymentBranch()
    ensures BranchQuery(Transaction2, 1, ["name", "amount"])
      == Query(Table("payment"),
           [("name", FieldRef("payment", "name")), ("amount", FieldRef("payment", "amount"))],
           [], [], [], [], None)
  {
    ProjectPair(Transaction2, Payment, map[], "name", "amount");
  }

  /** `getSubQuery(['name', 'amount'])`: invoices project the negated amount,
      payments the plain one. */
  lemma NestedQuery()
    ensures var q := SubQuery(Transaction2, ["name", "amount"]);
      && q.template == Template.UnionTemplate(2)
      && q.args[0] == Sub(Query(Table("invoice"),
           [("name", FieldRef("invoice", "name")), ("amount", Template("-[]", [FieldRef("invoice", "amount")]))],
           [], [], [], [], None))
      && q.args[1] == Sub(Query(Table("payment"),
           [("name", FieldRef("payment", "name")), ("amount", FieldRef("payment", "amount"))],
           [], [], [], [], None))
      && q.args[2] == Ident(DefaultAlias)
  {
    InvoiceBranch();
    PaymentBranch();
  }

  /** Invoices with `addExpression('type', "'invoice'")`. */
  const TypedInvoice: Schema := Schema("invoice", ["name", "client_id", "amount", "type"],
    map["name" := Plain(""), "client_id" := Plain(""), "amount" := Plain("money"),
        "type" := FieldInfo(Some(Raw("'invoice'")), false, false, "", "")], [], [], None)

  /** Transaction2 with a `type` field, over the typed invoices and the
      payments, which have no such field. */
  const TypedTransaction: UnionView := UnionView(
    Schema(DefaultAlias, ["name", "amount", "type"],
      map["name" := Plain(""), "amount" := Plain("money"), "type" := Plain("")], [], [], None),
    [Branch(Member.Plain(TypedInvoice), map["amount" := "-[]"]), Branch(Member.Plain(Payment), map[])],
    NoGroup, [], [])

  /** A field the view has but a branch lacks is projected as NULL there. */
  lemma MissingField()
    ensures var q := SubQuery(TypedTransaction, ["type", "amount"]);
      && q.args[0].q.fields == [("type", Raw("'invoice'")), ("amount", Template("-[]", [FieldRef("invoice", "amount")]))]
      && q.args[1].q.fields == [("type", Null), ("amount", FieldRef("payment", "amount"))]
  {
    TypedInvoiceBranch();
    TypedPaymentBranch();
  }

  lemma TypedInvoiceBranch()
    ensures BranchQuery(TypedTransaction, 0, ["type", "amount"]).fields
      == [("type", Raw("'invoice'")), ("amount", Template("-[]", [FieldRef("invoice", "amount")]))]
  {
    ProjectPair(TypedTransaction, TypedInvoice, map["amount" := "-[]"], "type", "amount");
  }

  lemma TypedPaymentBranch()
    ensures BranchQuery(TypedTransaction, 1, ["type", "amount"]).fields
      == [("type", Null), ("amount", FieldRef("payment", "amount"))]
  {
    ProjectPair(TypedTransaction, Payment, map[], "type", "amount");
  }

  const SumFx: SubAct := SubFx("sum", AStr("amount"), "val")

  /** Each branch sums its own (mapped) amount as `val`. */
  lemma FxBranches()
    ensures BranchAction(Transaction2, 0, SumFx)
      == Ok(FxQuery(Invoice, "sum", Template("-[]", [FieldRef("invoice", "amount")]), "val"))
    ensures BranchAction(Transaction2, 1, SumFx) == Ok(FxQuery(Payment, "sum", FieldRef("payment", "amount"), "val"))
  {
  }

  /** The view persists both of its fields. */
  lemma TransactionFields()
    ensures Union.PersistedFields(Transaction2.schema, ListedFields(Transaction2)) == Ok(["name", "amount"])
  {
    assert ListedFields(Transaction2) == ["name", "amount"];
    var s := Transaction2.schema;
    assert Union.PersistedFields(s, []) == Ok([]);
    assert ["amount"][1..] == [];
    assert ["amount"] + [] == ["amount"];
    assert Union.PersistedFields(s, ["amount"]) == Ok(["amount"]);
    assert ["name", "amount"][1..] == ["amount"];
    assert ["name"] + ["amount"] == ["name", "amount"];
  }

  /** `action('fx', ['sum', 'amount'])`: the branches' sums are summed again
      as `val`. */
  lemma FxAction()
    ensures var r := Union.Action(Transaction2, "fx", [AStr("sum"), AStr("amount")]);
      && r.Ok?
      && r.value.fields == [("", Template("sum([])", [Ident("val")]))]
      && r.value.source.Derived? && r.value.source.e.Template? && |r.value.source.e.args| == 3
      && r.value.source.e.args[0] == Sub(FxQuery(Invoice, "sum", Template("-[]", [FieldRef("invoice", "amount")]), "val"))
      && r.value.source.e.args[1] == Sub(FxQuery(Payment, "sum", FieldRef("payment", "amount"), "val"))
  {
    FxBranches();
    TransactionFields();
    SubActionSpec(Transaction2, SumFx);
    assert BranchesOk(Transaction2, SumFx, |Transaction2.union|);
    var sub := SubAction(Transaction2, SumFx).value;
    assert Union.Action(Transaction2, "fx", [AStr("sum"), AStr("amount")])
      == Ok(FxQuery(Transaction2.schema, "sum", Ident("val"), "").(source := Derived(sub)));
    assert "sum" + "([])" == "sum([])";
  }

  /** Each branch counts its rows as `cnt`. */
  lemma CountBranches()
    ensures BranchAction(Transaction2, 0, SubCount("cnt")) == Ok(CountQuery(Invoice, "cnt"))
    ensures BranchAction(Transaction2, 1, SubCount("cnt")) == Ok(CountQuery(Payment, "cnt"))
  {
  }

  /** `action('count')`: the branches' counts are summed as `cnt`. */
  lemma CountAction()
    ensures var r := Union.Action(Transaction2, "count", []);
      && r.Ok?
      && r.value.fields == [("", Template("sum([])", [Ident("cnt")]))]
      && r.value.source.Derived? && r.value.source.e.Template? && |r.value.source.e.args| == 3
      && r.value.source.e.args[0] == Sub(CountQuery(Invoice, "cnt"))
      && r.value.source.e.args[1] == Sub(CountQuery(Payment, "cnt"))
  {
    CountBranches();
    TransactionFields();
    SubActionSpec(Transaction2, SubCount("cnt"));
    assert "sum" + "([])" == "sum([])";
  }

  const SumAmount: Expr := Template("sum([])", [FieldRef(DefaultAlias, "amount")])

  /** Transaction2 after `groupBy('name', ['amount' => 'sum([])'])`. */
  const GroupedTransaction: UnionView := UnionView(
    Schema(DefaultAlias, ["name", "amount"], map["name" := Plain(""), "amount" := ExprField(SumAmount)], [], [], None),
    Transaction2.union, Key("name"), [("amount", "sum([])")], [])

  /** The aggregate field becomes `sum([])` over the view's own amount, and
      the source's loop gives the same view. */
  lemma GroupByStep()
    ensures Union.GroupBy(Transaction2, Key("name"), [("amount", "sum([])")]) == GroupedTransaction
    ensures Union.GroupByAsWritten(Transaction2, Key("name"), [("amount", "sum([])")]) == Ok(GroupedTransaction)
  {
    var agg := [("amount", "sum([])")];
    GroupBySchemaStep();
    var bs := Propagate(Transaction2.union, Key("name"), agg);
    assert bs[0] == Transaction2.union[0] && bs[1] == Transaction2.union[1];
    assert bs == Transaction2.union;
  }

  lemma GroupBySchemaStep()
    ensures IntendedAggregates(Transaction2.schema, [("amount", "sum([])")]) == GroupedTransaction.schema
  {
    var agg := [("amount", "sum([])")];
    var s := Transaction2.schema;
    DefineAmountStep();
    assert "amount" in s.info && Column(s, "amount") == FieldRef(DefaultAlias, "amount");
    assert AggregateExpr("sum([])", Some(FieldRef(DefaultAlias, "amount"))) == SumAmount;
    assert agg[1..] == [];
    assert IntendedAggregates(s, agg) == IntendedAggregates(Define(s, "amount", ExprField(SumAmount)), []);
  }

  lemma DefineAmountStep()
    ensures Define(Transaction2.schema, "amount", ExprField(SumAmount)) == GroupedTransaction.schema
  {
    DefineAmountNames();
    DefineAmountInfo();
  }

  /** Redefining the last field keeps the field order. */
  lemma DefineAmountNames()
    ensures Define(Transaction2.schema, "amount", ExprField(SumAmount)).names == ["name", "amount"]
  {
    assert ["name", "amount"][1..] == ["amount"];
    assert Without(["amount"], "amount") == [];
    assert Without(["name", "amount"], "amount") == ["name"];
  }

  lemma DefineAmountInfo()
    ensures Define(Transaction2.schema, "amount", ExprField(SumAmount)).info == GroupedTransaction.schema.info
  {
    var s := Transaction2.schema;
    assert Define(s, "amount", ExprField(SumAmount)).info == s.info["amount" := ExprField(SumAmount)];
  }

  /** `getSubQuery(['name', 'amount'])` after grouping: each branch sums its
      mapped amount and groups by the raw key name. */
  lemma Grouping()
    ensures var q := SubQuery(GroupedTransaction, ["name", "amount"]);
      && q.args[0].Sub?
      && q.args[0].q.fields
         == [("name", FieldRef("invoice", "name")),
             ("amount", Template("sum([])", [Template("-[]", [FieldRef("invoice", "amount")])]))]
      && q.args[0].q.group == [Ident("name")]
      && q.args[1].Sub? && q.args[1].q.group == [Ident("name")]
  {
    GroupedInvoiceBranch();
    assert BranchQuery(GroupedTransaction, 1, ["name", "amount"]).group == [Ident("name")];
  }

  lemma GroupedInvoiceBranch()
    ensures var q := BranchQuery(GroupedTransaction, 0, ["name", "amount"]);
      && q.fields == [("name", FieldRef("invoice", "name")),
                      ("amount", Template("sum([])", [Template("-[]", [FieldRef("invoice", "amount")])]))]
      && q.group == [Ident("name")]
  {
    var v := GroupedTransaction;
    assert Lookup(v.aggregate, "amount") == Some("sum([])");
    assert Lookup(v.aggregate, "name").None?;
    ProjectPair(v, Invoice, map["amount" := "-[]"], "name", "amount");
  }

  // ---------------------------------------------------------------- GroupModel

  /** The invoice model as the group tests see it, with the client title
      `client` as an expression field. */
  const TitledInvoice: Schema := Schema("invoice", ["name", "client_id", "amount", "client"],
    map["name" := Plain(""), "client_id" := Plain(""), "amount" := Plain("money"),
        "client" := FieldInfo(Some(Raw("(select name from client)")), false, false, "", "")], [], [], None)

  /** `new GroupModel($invoice)`, `addField('client')`, and
      `groupBy(['client_id'], ['c' => ['count(*)', 'type' => 'integer']])`. */
  function ClientGroups(): Group.GroupView {
    var g := Group.AddField(Group.New(TitledInvoice), "client", Group.PlainSeed);
    Group.GroupBy(g, ["client_id"], [("c", CountSeed)])
  }

  const CountSeed: Group.AggSeed := Group.ArrSeed("count(*)", Some("integer"))

  /** The view's schema after grouping: the title field, the key, the aggregate. */
  const ClientGroupsSchema: Schema := Schema("invoice", ["client", "client_id", "c"],
    map["client" := TitledInvoice.info["client"], "client_id" := Plain(""),
        "c" := FieldInfo(Some(Template("count(*)", [Null])), false, false, "", "integer")], [], [], None)

  const TitleSchema: Schema := Schema("invoice", ["client"], map["client" := TitledInvoice.info["client"]], [], [], None)

  const KeyedSchema: Schema := Schema("invoice", ["client", "client_id"],
    map["client" := TitledInvoice.info["client"], "client_id" := Plain("")], [], [], None)

  lemma TitleStep()
    ensures Group.AddField(Group.New(TitledInvoice), "client", Group.PlainSeed).schema == TitleSchema
  {
    var g0 := Group.New(TitledInvoice);
    DefineFresh(g0.schema, "client", TitledInvoice.info["client"]);
  }

  lemma KeyStep()
    ensures Group.AddKeys(TitleSchema, TitledInvoice, ["client_id"]) == KeyedSchema
  {
    var f := Group.FieldFor(TitledInvoice, "client_id", Group.PlainSeed);
    assert f == Plain("");
    DefineFresh(TitleSchema, "client_id", f);
    assert ["client_id"][1..] == [];
  }

  lemma AggregateStep()
    ensures Group.AddAggregates(KeyedSchema, TitledInvoice, [("c", CountSeed)]) == ClientGroupsSchema
  {
    var agg := [("c", CountSeed)];
    var f := ClientGroupsSchema.info["c"];
    CountFieldStep();
    var s1 := Define(KeyedSchema, "c", f);
    DefineFresh(KeyedSchema, "c", f);
    assert s1.names == ClientGroupsSchema.names;
    assert s1.info == ClientGroupsSchema.info;
    assert agg[1..] == [];
    assert Group.AddAggregates(KeyedSchema, TitledInvoice, agg) == Group.AddAggregates(s1, TitledInvoice, []);
  }

  lemma CountFieldStep()
    ensures Group.AggregateField(TitledInvoice, "c", CountSeed) == ClientGroupsSchema.info["c"]
  {
    assert "c" !in TitledInvoice.info;
  }

  lemma SystemFieldsStep()
    ensures PhpArray.Unique(PhpArray.Plus([], PhpArray.FromList(["client_id"]))) == [(0, "client_id")]
  {
    var f := PhpArray.FromList(["client_id"]);
    assert f == [(0, "client_id")];
    assert PhpArray.KeySet<string>([]) == {};
    assert PhpArray.Plus([], f) == f;
    assert PhpArray.Unique(f) == f;
  }

  const ClientGroupsView: Group.GroupView :=
    Group.GroupView(ClientGroupsSchema, TitledInvoice, ["client_id"], [("c", CountSeed)], [(0, "client_id")], [])

  /** The view after grouping, field by field. */
  lemma ClientGroupsShape()
    ensures ClientGroups() == ClientGroupsView
  {
    TitleStep();
    KeyStep();
    AggregateStep();
    SystemFieldsStep();
  }

  /** `array_unique(fields + system_fields)`: the key is already among the
      fields at position 0, so the field list is kept as it is. */
  lemma SelectNamesStep()
    ensures Group.SelectNames(ClientGroupsView) == ["client", "client_id", "c"]
  {
    var names := ["client", "client_id", "c"];
    var fl := PhpArray.FromList(names);
    assert Group.Available(ClientGroupsView) == names;
    PhpArray.KeySetOfList(fl);
    assert 0 in PhpArray.KeySet(fl);
    assert PhpArray.Missing(ClientGroupsView.systemFields, PhpArray.KeySet(fl)) == [];
    assert PhpArray.Plus(fl, ClientGroupsView.systemFields) == fl;
    PhpArray.UniqueFromOfDistinct(fl, {});
  }

  /** The grouped view's columns: the title expression, the master's key
      column, and the aggregate over NULL (the master has no `c`). */
  const ClientColumns: seq<(string, Expr)> :=
    [("client", Raw("(select name from client)")), ("client_id", FieldRef("invoice", "client_id")),
     ("c", Template("count(*)", [Null]))]

  /** Projecting the view's three fields, one name at a time; the view's
      conditions play no part. */
  lemma ProjectStep(s: Schema)
    requires s.table == "invoice" && s.info == ClientGroupsSchema.info
    ensures ProjectFields(s, ["client", "client_id", "c"]) == Ok(ClientColumns)
  {
    assert Column(s, "client") == ClientColumns[0].1;
    assert Column(s, "client_id") == ClientColumns[1].1;
    assert Column(s, "c") == ClientColumns[2].1;
    ProjectFieldsOne(s, "client");
    ProjectFieldsOne(s, "client_id");
    ProjectFieldsOne(s, "c");
    var n1, n2, n3 := ["client"], ["client_id"], ["c"];
    ProjectFieldsConcat(s, n1, n2);
    ProjectFieldsConcat(s, n1 + n2, n3);
    assert n1 + n2 + n3 == ["client", "client_id", "c"];
    assert [ClientColumns[0]] + [ClientColumns[1]] + [ClientColumns[2]] == ClientColumns;
  }

  /** The grouped select projects the view's fields, groups by the master's
      `client_id` and filters nothing. */
  lemma GroupSelect(tc: (FieldInfo, Value) -> Value)
    ensures var g := ClientGroupsView;
      && Group.SelectNames(g) == ["client", "client_id", "c"]
      && var r := Group.Select(g, tc);
         && r.Ok?
         && r.value.source == Table("invoice")
         && r.value.fields == ClientColumns
         && r.value.group == [FieldRef("invoice", "client_id")]
         && r.value.having == []
  {
    SelectNamesStep();
    ProjectStep(ClientGroupsSchema);
    assert Group.InitQueryConditions(ClientGroupsSchema, [], tc) == Ok([]);
    ClientGroupingStep();
  }

  lemma ClientGroupingStep()
    ensures Group.Grouping(TitledInvoice, ["client_id"]) == [FieldRef("invoice", "client_id")]
  {
    assert "client_id" in TitledInvoice.info;
    assert ["client_id"][1..] == [];
  }

  /** A condition on the aggregate goes to HAVING under the field's name,
      with its value typecast. */
  lemma GroupHaving(tc: (FieldInfo, Value) -> Value)
    ensures var g := ClientGroupsView.(schema := ClientGroupsSchema.(conditions := [Cmp(LName("c"), ">", VInt(10))]));
      var r := Group.Select(g, tc);
      && r.Ok?
      && r.value.fields == ClientColumns
      && r.value.having == [Cmp(LName("c"), ">", tc(ClientGroupsSchema.info["c"], VInt(10)))]
  {
    var s := ClientGroupsSchema.(conditions := [Cmp(LName("c"), ">", VInt(10))]);
    var g := ClientGroupsView.(schema := s);
    assert Group.Available(g) == Group.Available(ClientGroupsView);
    SelectNamesStep();
    assert Group.SelectNames(g) == ["client", "client_id", "c"];
    ProjectStep(s);
    assert Group.HavingName(s, "c") == "c";
    assert Group.HavingOf(s, s.conditions[0], tc).Ok?;
    Group.InitQueryConditionsSpec(s, s.conditions, tc);
  }
}
