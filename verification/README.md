# atk4/report views, modelled in Dafny

This project models the two report views of atk4/report as pure functions over a small query AST:

- **UnionModel** stitches N nested models ("branches") into one `UNION ALL` derived table.
  - Each branch has a mapping from view field names to templates over the branch's own fields.
  - A field that a branch lacks is filled with NULL.
  - Grouping and aggregates are pushed into every branch.
  - A condition on a field the view lacks is routed to the branches.
- **GroupModel** is a read-only view over one master model that adds GROUP BY keys and aggregate fields.
  - Its own conditions become HAVING.
  - The master's conditions stay in WHERE.

Queries are values (`Sql.Query`, `Sql.Expr`). Nothing is rendered to SQL text and nothing is executed.

The base model and its persistence are reduced to the slice the views consume: `Sql.Schema`, `Sql.Define`, `Sql.BaseSelect`, `Sql.ProjectFields`, `Sql.CountQuery`, `Sql.FxQuery` and `Sql.FieldQuery`.

PHP integer-keyed arrays are modelled by `PhpArray`. It keeps their keys, so the key-union `+` and `array_unique` behave as PHP's do.

The `UNION ALL` placeholder template is built by `Template`. `Template.Slots` is an independent scanner that reads the placeholder numbers back out of a template.

Modules:

| module | file | models |
|---|---|---|
| `Sql` | sql.dfy | query AST, errors, the base-model slice |
| `PhpArray` | php_array.dfy | PHP `+` on arrays, `array_unique` |
| `Template` | template.dfy | `[i]` / `{i}` placeholder templates |
| `Union` | union_model.dfy | src/UnionModel.php |
| `Group` | group_model.dfy | src/GroupModel.php |
| `Fixtures` | fixtures.dfy | the test models (Invoice, Payment, Transaction2) and the query shapes the tests expect |

## Model

| member | source | states |
|---|---|---|
| Sql.Define | src/UnionModel.php:360-364 | removeField followed by addExpression: the field ends up last with the new definition; every other field keeps its definition; the table, conditions, order and limit are untouched |
| Sql.DefineFresh | src/GroupModel.php:93-95 | adding a field the model lacks appends it after the existing fields |
| PhpArray.PlusOnLists | src/GroupModel.php:92 | PHP `a + b` on two lists keeps all of `a`, then only the elements of `b` at positions `|a|` and beyond (a key union, not a concatenation) |
| PhpArray.UniqueSpec | src/GroupModel.php:92 | `array_unique` leaves each value once, keeps every value, and invents no entry; each kept entry is the first entry holding its value, key included, and the kept entries stay in the order their values first occur |
| PhpArray.UniqueIdempotent | src/GroupModel.php:258 | applying `array_unique` twice equals applying it once |
| Template.UnionTemplateSlots | src/UnionModel.php:164-198 | the derived-table template has positional slots 0..n-1 in order and one identifier slot numbered n |
| Template.ParseNatToString | src/UnionModel.php:164 | the decimal placeholder number reads back as the number |
| Union.FieldExpr | src/UnionModel.php:80-94 | corrected getFieldExpr: the branch's own field, or NULL when the branch lacks it, wrapped in the mapping template when one is given |
| Union.FieldExprAsWritten | src/UnionModel.php:80-94 | getFieldExpr as written, under its declared Field return type: it returns exactly when the branch has the field and no mapping is given, and raises a type error otherwise |
| Union.FieldExprAgrees | src/UnionModel.php:80-94 | where the as-written getFieldExpr returns, it returns the corrected result; it raises exactly where the corrected one builds a template or NULL |
| Union.ResolveRules | src/UnionModel.php:116-137 | the per-field rules of getSubQuery: unknown field gives NULL; join or never-persisted field is skipped; expression field without an aggregate is skipped; an aggregate wraps the mapped branch field |
| Union.Project | src/UnionModel.php:109-161 | a branch projects each requested field at most once, exactly those the rules push into the branch, each with the rule's expression |
| Union.NullFill | src/UnionModel.php:116-120 | a requested field the view lacks is projected as NULL in every branch instead of raising |
| Union.ProjectKeepsOrder | src/UnionModel.php:110-157 | distinct requested fields that are all pushed in are projected in argument order |
| Union.ResolvePushed | src/UnionModel.php:116-137 | whether a requested field reaches a branch depends on the view alone: it is pushed unless it is a join, never-persisted, or an expression field without an aggregate |
| Union.ProjectOrder | src/UnionModel.php:109-161 | with distinct requested fields, a branch projects exactly the pushed ones, in request order |
| Union.ProjectAligned | src/UnionModel.php:109-161 | two branches project the same column names in the same order, whatever their models and mappings |
| Union.BranchColumnsAlign | src/UnionModel.php:163-195 | any two branch queries of one view have the same column names in the same order, so the UNION ALL lines its columns up |
| Union.GroupableKeys | src/UnionModel.php:181-188 | with a list of keys, a branch groups by exactly the keys it maps or has as fields, and by the whole list when it can group by every key |
| Union.GroupableKeysOne | src/UnionModel.php:182-188 | a single key is kept exactly when the branch maps it or has it |
| Union.GroupableKeysConcat | src/UnionModel.php:182-188 | the keys are filtered one at a time in loop order: the filter of two lists joined is the two filters joined, so order and repeats are kept |
| Union.KeysGroup | src/UnionModel.php:181-188 | each groupable key groups by its mapping template, else by the branch's field |
| Union.StringVersusListKey | src/UnionModel.php:180-194 | a string key and the one-element list agree through a mapping; without one, the string groups by the raw name while the list uses the branch's field or skips the branch |
| Union.BranchQuery | src/UnionModel.php:163-195 | a branch query selects from the branch's table (or a nested view's derived table plus its own grouping), with the branch's conditions, the projected fields and the view's GROUP BY |
| Union.SubQuery | src/UnionModel.php:100-199 | the derived table is the UNION ALL template over one query per branch, in branch order, aliased by the view's table |
| Union.SubQuerySlots | src/UnionModel.php:164-198 | every positional slot i of the template names branch query i and its one identifier slot names the alias |
| Union.BranchAction | src/UnionModel.php:210-225 | count and fx per branch: a plain branch runs the persistence action, the fx field goes through the mapping, a non-string fx field is a type error |
| Union.BranchActionsOk | src/UnionModel.php:210-226 | the branch loop succeeds exactly when every branch's action does |
| Union.SubActionSpec | src/UnionModel.php:204-229 | getSubAction succeeds exactly when every branch does, and then slot i holds branch i's action query |
| Union.PersistedFields | src/UnionModel.php:243-249 | every listed field must exist; the result holds exactly the listed fields that are persisted |
| Union.PersistedFieldsConcat | src/UnionModel.php:243-249 | the filter works field by field: on two lists joined it succeeds exactly when it does on both, and its result is the two results joined, so the listed order is kept |
| Union.PersistedFieldsOne | src/UnionModel.php:243-249 | a single field the view lacks raises NoSuchField; one it has is kept unless it is never persisted |
| Union.Action | src/UnionModel.php:234-304 | insert, update and delete are refused; a listed field that is missing fails every other mode with its error; unknown modes are refused; every success is a known mode over a derived table |
| Union.ActionArgErrors | src/UnionModel.php:269-288 | `field` without a string field name, and `fx` without a string function name and a field, are rejected |
| Union.ActionSelect | src/UnionModel.php:242-261 | select succeeds exactly when the fields resolve and the parent's select does; it is the parent's select over the derived table of the persisted fields, with the view's WHERE, grouped by the raw grouping spec |
| Union.ActionCount | src/UnionModel.php:263-267 | count succeeds exactly when every branch's count does; it sums the branches' `cnt` over the UNION ALL of branch i's count query in slot i, aliased by the view's table |
| Union.ActionField | src/UnionModel.php:269-300 | field succeeds exactly when the view has the field; it selects that one field from the derived table of that field |
| Union.ActionFx | src/UnionModel.php:284-288 | fx succeeds exactly when every branch's fx does; it applies the function again to the branches' `val` over the UNION ALL of branch i's fx query in slot i |
| Union.DefineAggregates | src/UnionModel.php:353-365 | the aggregate loop as written keeps the schema valid and the table, conditions, order and limit unchanged |
| Union.DefineAggregatesNames | src/UnionModel.php:353-365 | the loop keeps every old field and adds exactly the aggregate fields |
| Union.DefineAggregatesKeeps | src/UnionModel.php:353-365 | a field that is not an aggregate keeps its definition |
| Union.DefineAggregatesExprs | src/UnionModel.php:353-365 | every aggregate field ends up an expression field |
| Union.DefineAggregatesError | src/UnionModel.php:353-365 | the one error the loop raises names an aggregate field the view lacks |
| Union.DefineAggregatesOk | src/UnionModel.php:353-365 | with distinct keys, the loop fails exactly when an aggregate after the first is missing from the view, or the first is missing while an earlier expression is still held |
| Union.StaleFieldObject | src/UnionModel.php:354-364 | concrete case: a second aggregate over a missing field raises as written, while the intended loop binds it to NULL |
| Union.IntendedAggregatesBind | src/UnionModel.php:353-365 | corrected loop: each aggregate field is its own template over its own previous definition (or NULL), never over another field's |
| Union.IntendedKeeps | src/UnionModel.php:353-365 | corrected loop: a non-aggregate field keeps its definition |
| Union.Propagate | src/UnionModel.php:367-372 | the raw grouping spec and aggregates are copied onto every nested UnionModel branch; plain branches are untouched |
| Union.AggregatesAgree | src/UnionModel.php:353-365 | when every aggregate field already exists on the view, the as-written and corrected loops give the same schema |
| Union.IntendedNames | src/UnionModel.php:353-365 | the corrected loop keeps every old field and adds exactly the aggregate fields |
| Union.GroupByAsWritten | src/UnionModel.php:348-375 | groupBy with the loop as written: the spec and aggregates are replaced, not merged, and groupBy fails exactly when the loop does |
| Union.GroupBy | src/UnionModel.php:348-375 | groupBy with the corrected loop never fails; the spec and aggregates are replaced, the branch specs are rebuilt, and it equals the as-written groupBy whenever every aggregate field exists |
| Union.GroupByFields | src/UnionModel.php:348-375 | after groupBy the view has its old fields plus the aggregate fields; each aggregate is its template over its own previous column (or NULL), and every other field is kept |
| Union.GroupByOk | src/UnionModel.php:348-375 | with distinct keys, groupBy as written succeeds exactly when every aggregate after the first already exists on the view |
| Union.RegroupDropsStaleAggregates | src/UnionModel.php:129 | after a regroup, a field that only the old aggregate set turned into an expression field is no longer pushed into the branches |
| Union.Shape | src/UnionModel.php:419-427 | two arguments give an equality condition; three or four give a comparison with the operator |
| Union.Routed | src/UnionModel.php:406-417 | a branch receives the condition exactly when it maps the field or has it; the left side is the mapping template over the branch's fields, else the branch's own field |
| Union.RouteTo | src/UnionModel.php:402-432 | a routed condition is appended to a plain branch's conditions; nested and non-matching branches are unchanged |
| Union.AddCondition | src/UnionModel.php:390-435 | one argument, or a field the view has without force, stays on the view; otherwise each branch gets its routed condition and the view is unchanged |
| Union.RoutedConditionCount | src/UnionModel.php:402-432 | routing appends at most one condition to each plain branch and keeps the earlier ones as a prefix |
| Group.New | src/GroupModel.php:67-77 | a fresh view has no fields, no system fields and the master's table |
| Group.FieldFor | src/GroupModel.php:135-153 | an expression or never-persisted seed is taken as is; otherwise the master's field is inherited with the seed's type on top; otherwise the seed alone |
| Group.AddField | src/GroupModel.php:135-153 | addField keeps the view valid and defines the field as FieldFor says |
| Group.AddFieldInherits | src/GroupModel.php:148-152 | a plain addField of a master field copies the master's definition |
| Group.AggregateField | src/GroupModel.php:97-111 | an aggregate is its template over the master's field of that name, or over NULL, with the seed's type |
| Group.GroupBy | src/GroupModel.php:87-115 | keys and aggregates are replaced; system_fields becomes `array_unique(system_fields + group)`; conditions are kept |
| Group.AddKeysNames | src/GroupModel.php:93-95 | the key loop adds exactly the keys |
| Group.AddKeysDefine | src/GroupModel.php:93-95 | every key ends up defined as a plain addField defines it |
| Group.AddAggregatesNames | src/GroupModel.php:97-112 | the aggregate loop adds exactly the aggregate fields |
| Group.AddAggregatesDefine | src/GroupModel.php:97-112 | with distinct names, each aggregate field is exactly its template over the master's field |
| Group.GroupByFields | src/GroupModel.php:87-115 | after groupBy the fields are the old ones plus the keys plus the aggregates; every aggregate is its template, every key that no aggregate replaces inherits from the master, and every other field keeps its definition |
| Group.RegroupSystemFields | src/GroupModel.php:92 | when g1 has no repeated key, grouping by g1 and then g2 records exactly g1 plus the elements of g2 at positions at or beyond the length of g1 |
| Group.RegroupSystemFieldsAny | src/GroupModel.php:92 | for any g1, grouping by g1 and then g2 records exactly g1 plus the elements of g2 at positions where `array_unique` of g1 kept no key (a repeated key in g1 frees its later positions) |
| Group.GroupingAsWritten | src/GroupModel.php:168-183 | addGrouping as written emits one GROUP BY entry per key |
| Group.StaleGroupingKey | src/GroupModel.php:173-181 | concrete case: a key the master lacks, after one it has, groups as written by the earlier field again |
| Group.Grouping | src/GroupModel.php:168-183 | corrected addGrouping: each key groups by the master's field, or by the raw key name when the master lacks it |
| Group.GroupingAgrees | src/GroupModel.php:168-183 | when every key is a master field, the as-written and corrected groupings are equal |
| Group.OrRow | src/GroupModel.php:337-341 | an OR row's string field is replaced by the field, and a missing field raises; other rows are kept, and none is typecast |
| Group.OrRows | src/GroupModel.php:336-342 | an OR list succeeds exactly when every row does, and row i becomes OrRow of row i |
| Group.HavingOf | src/GroupModel.php:334-367 | a named condition goes to HAVING under the field's actual name (or its name) with the value typecast; expression conditions pass through untouched; OR lists pass through rows |
| Group.InitQueryConditionsSpec | src/GroupModel.php:321-371 | HAVING succeeds exactly when every condition does, and entry i is condition i translated |
| Group.SetLimit | src/GroupModel.php:195-200 | the limit is set on the master |
| Group.SetOrder | src/GroupModel.php:212-217 | the order entry is appended to the master's order |
| Group.LimitReachesSelect | src/GroupModel.php:195-200 | a limit set on the view reaches the select query |
| Group.OrderReachesSelect | src/GroupModel.php:212-217 | an order set on the view reaches the select query, after the master's own |
| Sql.ProjectFieldsOne | src/GroupModel.php:255-265 | a single listed name is projected as its column unless it is never persisted, and a name the model lacks raises NoSuchField |
| Sql.ProjectFieldsConcat | src/GroupModel.php:255-265 | the projection works name by name: on two lists joined it succeeds exactly when it does on both and projects the two results joined, so every listed persisted field is projected, in the listed order |
| Group.Select | src/GroupModel.php:255-265 | select is the master's query with the view's fields plus system fields, the GROUP BY and the view's conditions as HAVING; it fails exactly when a field or a condition does |
| Group.Count | src/GroupModel.php:266-278 | count wraps the grouped query as a derived table and counts its rows |
| Group.CountMatchesSelect | src/GroupModel.php:266-278 | the query count wraps has select's table, WHERE and GROUP BY, and no HAVING |
| Group.CountIgnoresConditions | src/GroupModel.php:266-278 | the view's own conditions do not change count |
| Group.Action | src/GroupModel.php:227-315 | insert, update and delete are refused; select and count as above; field and fx fail on methods the class does not define; other modes are refused |
| Fixtures.FieldExprExamples | tests/UnionExprTest.php:35-41 | getFieldExpr on invoices: the field, the negated field, and NULL under the mapping |
| Fixtures.MappedFieldRaises | tests/UnionExprTest.php:35-41 | getFieldExpr as written returns the plain invoice field, but raises on the two calls that go through the `-[]` mapping |
| Fixtures.NestedQuery | tests/UnionExprTest.php:53-56 | invoices project the negated amount and payments the plain one, under the derivedTable alias |
| Fixtures.MissingField | tests/UnionExprTest.php:67-78 | a view field that payments lack is NULL in the payment branch |
| Fixtures.CountAction | tests/UnionExprTest.php:95-98 | count sums the branches' `cnt` counts |
| Fixtures.FxAction | tests/UnionExprTest.php:100-103 | fx sums the branches' `val` sums, with the invoice amount negated |
| Fixtures.GroupByStep | tests/UnionExprTest.php:159 | the grouped view's amount becomes `sum([])` over its own amount, with the as-written and corrected groupBy agreeing |
| Fixtures.GroupBySchemaStep | tests/UnionExprTest.php:159 | the corrected loop on the transaction view redefines only `amount`, as `sum([])` over its own column |
| Fixtures.Grouping | tests/UnionExprTest.php:159-165 | after grouping, each branch sums its mapped amount and groups by the raw name |
| Fixtures.ClientGroupsShape | tests/GroupTest.php:37-47 | the grouped view has the fields client, client_id and c, and records client_id as a system field |
| Fixtures.GroupSelect | tests/GroupTest.php:43-56 | the grouped select succeeds and projects, in this order, client as the title expression, client_id as the invoice's column and c as `count(*)`, from invoice, grouped by the invoice's client_id, with no HAVING |
| Fixtures.GroupHaving | tests/GroupTest.php:146 | with a condition on an aggregate the select still succeeds, projects the same columns, and has that condition in HAVING under the field's name, with the value typecast |

## Left out

- SQL rendering, quoting and execution belong to the query builder. A query here is an AST value.
- Hooks (`HOOK_AFTER_UNION_SELECT`, `HOOK_AFTER_GROUP_SELECT`) are callbacks with no effect on the query shape.
- `export`, `__debugInfo`, `addNestedModel`, `getRef` and `queryFields` are not modelled: they are I/O, debugging or thin wrappers.
- src/UnionPersistence.php is not part of this model.
- `typecastSaveField` belongs to the persistence. It is a function parameter `tc` of the GroupModel select.
- Exceptions that the base model raises for a duplicate field on addField/addExpression are not visible in the source. `Sql.Define` therefore overwrites an existing field.
- Union.Action: `fx` with fewer than two arguments, or a non-string function name, is modelled as InvalidArgument. The source indexes the missing argument and fails later inside the persistence, which is not visible.
- Union.GroupBy: an aggregate seed given as an array (`['sum([])', 'type' => 'money']`) is modelled by its template alone. Its type has no effect on the query shape.
- Union.RouteTo: a nested UnionModel branch receiving a routed condition is left unchanged. It is handed an expression as the field, which it can find neither among its fields nor in its mappings.
- Union.Routed: a mapping given as an expression object rather than a template string is not modelled.
- Union.Routed: the branch's fields are given to the mapping template by position (`FieldArgs`). The source passes `getFields()`, keyed by field name, so a `[name]` placeholder in a mapping resolves there but not in this model.
- Union.BranchQuery: a GroupModel used as a branch of a UnionModel, which the GroupModel class comment permits (src/GroupModel.php:31), is not modelled. A branch is a plain model or a nested UnionModel.
- Union.GroupByAsWritten: when the aggregate loop raises, the source has already stored the new grouping spec and aggregates (src/UnionModel.php:349-350) and leaves the view half updated. The model returns the error and no view.
- Group.HavingOf: a condition whose left side is already a Field object, not a field name, is modelled as an expression and passed to HAVING untouched. The source typecasts its value and names it by `actual ?: short_name` (src/GroupModel.php:354-361), as it does for a name.
- Conditions whose single component is a raw string are not modelled. Neither are conditions with more than four arguments.
- Union.DefineAggregatesOk and Union.GroupByOk assume distinct aggregate keys (`UniqueKeys`), as a PHP string-keyed array always has. A `seq` of pairs could repeat a key.
- Group.Select: `only_fields` given as a non-list PHP array (with string keys) is not modelled. The view's field list is a list.

## Findings

| source | as written | input that shows it | evidently intended | confidence | as-written member | corrected member |
|---|---|---|---|---|---|---|
| src/UnionModel.php:353-364 | `$field_object` is assigned only when the view has the aggregate field, so a later aggregate over a missing field reuses the previous iteration's expression field and then calls removeField on a field that does not exist | `groupBy(..., ['a' => 'sum([])', 'b' => 'max([])'])` on a view with neither `a` nor `b` raises on `b` | each aggregate field is its template over its own field, or over NULL when the view lacks it | not executed; medium | Union.StaleFieldObject | Union.IntendedAggregatesBind |
| src/UnionModel.php:80-94 | getFieldExpr is declared to return a Field under strict types, but the NULL fallback and the mapping template are query expressions, so both raise a TypeError | `getFieldExpr($m_invoice, 'amount', '-[]')`, the Transaction2 invoice mapping | getFieldExpr returns the field, or NULL, wrapped in the mapping template (the return type admits expressions) | not executed; medium | Union.FieldExprAsWritten | Union.FieldExpr |
| src/GroupModel.php:173-181 | `$el` is assigned only when the master has the key, so a key the master lacks, after one it has, groups again by the earlier field | master `invoice` with only `client_id`, `groupBy(['client_id', 'x'])` groups by `client_id` twice | a key the master lacks groups by the raw key name | not executed; medium | Group.StaleGroupingKey | Group.Grouping |

The rest of the model uses the corrected GroupModel grouping (`Group.Select` and `Group.Count` group by `Group.Grouping`). For the first finding, `Union.GroupBy` (which `Fixtures` and the regroup lemma use) runs the corrected loop; the loop as written is kept as `Union.GroupByAsWritten`, and `Union.DefineAggregatesOk` and `Union.GroupByOk` characterise exactly when it raises. `Union.AggregatesAgree` shows the two loops coincide whenever every aggregate field already exists on the view. `Group.GroupingAgrees` shows that the two groupings coincide whenever every key is a master field. For getFieldExpr, the branch projection and the branch fx actions use the corrected `Union.FieldExpr`. `Union.FieldExprAgrees` shows the as-written version returns the same expression whenever it returns at all, and `Fixtures.MappedFieldRaises` names the calls from the repository's tests on which it raises.
