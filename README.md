# UnstructuredTable, modelled in Dafny

`UnstructuredTable` is a React component that shows an array of loosely-typed
flat records (`Record<string, boolean | number | string>`) as an HTML table.
The component works out the columns itself. It walks the records in order,
and each record's keys in enumeration order, adding every key to a `Set`.
Then it renders one header cell per column. For each record it renders one
body row, with one cell per column, holding `row[col] ?? ''`. Each row gets
a React key: `String(row.id)` when `row.id` is truthy, and the record's JSON
serialization otherwise. Each cell gets the key `col + value`.

The model has three modules:

- `Records` (records.dfy) holds the input. A value is `Bool | Num | Str`. A
  record is the sequence of its fields in enumeration order. The module also
  defines property lookup (`row[k]` as a lookup of the record's own
  properties, which gives `None` for `undefined`),
  JavaScript truthiness, and the text of a primitive value.
- `OrderedSets` (ordered_set.dfy) models JavaScript's insertion-ordered
  `Set<string>`. `InsertionOrderedSet` is a class whose `Add` updates its
  fields in place. `SetAdd` and `AddAll` give the abstract order. The lemmas
  say what a run of `add` calls builds: no duplicates, exactly the added
  elements, and first-seen order. They also show that these three facts
  determine the order.
- `UnstructuredTable` (unstructured_table.dfy) holds the component.
  `UnstructuredTable` is a method that follows the source's loops: the
  `Set`-filling double loop (split out as `CollectColumns`), the header
  loop, and the nested row/cell loops. It is proved equal to `Render`, a
  pure specification of the expected grid.
  The lemmas state the properties of `Columns` and `Render`.

JSX output is abstracted to a `Table`. Its header is a list of
`HeaderCell(key, text)`. Its body is a list of `Row(key, cells)`, and each
cell is a `Cell(key, value)`. `String(number)` and `JSON.stringify(record)`
are left uninterpreted. They are the two fields of a `Conversions` value that
the caller passes in. The text of a boolean (`"true"`/`"false"`) and of a
string (the string itself) is modelled exactly.

The live component is imported from a module that is not part of this model.
What is modelled is the component's source text, which src/App.tsx embeds as
a string at lines 4-59. The line numbers below point into that string.

Two details of the source that the model keeps:

- `row.id ?` tests truthiness (src/App.tsx:40). The row key therefore falls
  back to the serialization of the record when `id` is present but falsy
  (`0`, `false`, `''`), not only when `id` is missing (`RowKeyRule`).
- `{value}` in a cell is the raw value, not its text (src/App.tsx:34). How
  React then displays it (for example, nothing for a boolean) is not
  modelled.

## Model

| member | source | states |
|---|---|---|
| `Records.LookupSound` | src/App.tsx:30 | `row[col]`, as an own-property lookup, is undefined exactly when the record lacks the key as an own property, and what it finds is a field of the record under that key |
| `Records.LookupFindsField` | src/App.tsx:30 | in a record with distinct keys, `row[col]` yields the value stored under `col` |
| `Records.Truthy` | src/App.tsx:40 | the falsy primitives are exactly `false`, `0` and `''` |
| `OrderedSets.InsertionOrderedSet.constructor` | src/App.tsx:8 | `new Set()` starts empty and consistent |
| `OrderedSets.InsertionOrderedSet.Add` | src/App.tsx:14 | `columns.add(key)` appends the key when it is new and leaves the set unchanged otherwise; the set stays duplicate-free with membership matching its order |
| `OrderedSets.AddAllDistinct` | src/App.tsx:12-16 | a run of `add` calls never creates a duplicate and keeps what was already there as a prefix |
| `OrderedSets.AddAllElements` | src/App.tsx:12-16 | after a run of `add` calls the set holds exactly the earlier elements and the added ones |
| `OrderedSets.AddAllFirstSeen` | src/App.tsx:12-16 | starting from an empty set, `add`ing a sequence orders the elements by their first occurrence in it |
| `OrderedSets.FirstSeenOrderUnique` | src/App.tsx:12-18 | two duplicate-free sequences with the same elements, both in first-seen order, are equal |
| `UnstructuredTable.CollectColumns` | src/App.tsx:8-16 | the `Set`-filling double loop yields exactly the specified column list `Columns` |
| `UnstructuredTable.UnstructuredTable` | src/App.tsx:7-57 | the component's loops (column collection, header, rows, cells) build exactly the table `Render` specifies |
| `UnstructuredTable.FlatKeysElements` | src/App.tsx:12-13 | the scanned key sequence holds a key exactly when some record has it |
| `UnstructuredTable.ColumnsDistinct` | src/App.tsx:8-16 | no column appears twice, however many records share a key |
| `UnstructuredTable.ColumnsCoverKeys` | src/App.tsx:12-16 | a key is a column exactly when some record has it |
| `UnstructuredTable.ColumnsFirstSeen` | src/App.tsx:12-16 | columns are ordered by first appearance: records in input order, and each record's keys in enumeration order |
| `UnstructuredTable.ColumnsCharacterized` | src/App.tsx:8-18 | any duplicate-free list of exactly the records' keys in first-seen order is the column list |
| `UnstructuredTable.HeaderMatchesColumns` | src/App.tsx:18-24 | one header cell per column, in column order, keyed and labelled by the column name |
| `UnstructuredTable.BodyMatchesRecords` | src/App.tsx:26-44 | one body row per record, in input order, each keyed by its row key and holding exactly one cell per column |
| `UnstructuredTable.CellContents` | src/App.tsx:29-37 | a cell holds the record's value when the key is present, `false`, `0` and `''` included, keyed by column name plus value text; otherwise it holds `''` and is keyed by the bare column name |
| `UnstructuredTable.RowKeyRule` | src/App.tsx:40 | the row key is `String(id)` for a truthy `id`; with no `id`, or an `id` of `false`, `0` or `''`, it is the record's serialization |
| `UnstructuredTable.EmptyInput` | src/App.tsx:12-44 | no records give no columns, no header cells and no body rows |
| `UnstructuredTable.EmptyRecords` | src/App.tsx:12-44 | records without fields give no columns, and still one body row each, with no cells |
| `UnstructuredTable.TwoRecordsKeys` | src/App.tsx:12-13 | scanning `[{A:1,B:2},{B:3,C:4}]` meets the keys A, B, B, C |
| `UnstructuredTable.TwoRecordsColumns` | src/App.tsx:12-16 | `[{A:1,B:2},{B:3,C:4}]` gives the columns A, B, C |
| `UnstructuredTable.TwoRecordsRows` | src/App.tsx:26-44 | the rows of `[{A:1,B:2},{B:3,C:4}]` hold `[1, 2, '']` and `['', 3, 4]` |

## Left out

- The `App` component (src/App.tsx:86-129): React state, the clipboard promise, `setTimeout` and markup. It is UI and asynchronous plumbing.
- `generateRandomTableData` (src/App.tsx:61-84): it depends on `Math.random` and floating-point rounding, and its `while` loop ends only with probability one.
- JSX, HTML, `className` styling and React's display rules. The output is an abstract grid of keys and values.
- The formats of `String(number)` and `JSON.stringify(record)`. They are uninterpreted parameters.
- Numbers are unbounded integers. Fractional numbers, `NaN` (which is falsy) and `-0` are not modelled.
- JavaScript's own ordering of object keys (integer-like keys first) and inherited enumerable properties seen by `for...in`. A record arrives as its own keys in enumeration order. `DistinctKeys` is assumed only by the lemmas that need it.
- CellContents: `row[col]` is modelled as a lookup of the record's own properties (`Records.Lookup`). In JavaScript it also finds members inherited from the built-in object prototype (`toString`, `constructor`, `valueOf`, `hasOwnProperty`, `__proto__`): for a column of that name on a record lacking the key, the source's cell holds the inherited member, while `CellValue`, `CellContents` and `RenderCell` give `''`. Inherited members are functions or objects, outside the `Value` type of this model.
- React key uniqueness and collisions, for example equal records or equal `col + value` strings. These keys only guide React's list diffing.
- Idempotence is not stated as a lemma. `Render` is a function, so equal inputs give equal tables by construction, and the method is proved equal to it.
- vite.config.ts: build configuration with no logic.
