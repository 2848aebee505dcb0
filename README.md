# Almoxarifado inventory client, modelled in Dafny

The application keeps an inventory of products and categories. An Express server
forwards each request to Postgres. The logic worth verifying lives in three React
components of the client. This project models them:

- **ProductCrud** (`product_crud.dfy`): the product form and its validation, the product
  list that is patched after each create, update and delete instead of being fetched
  again, the search over that list, and the red "low stock" style of the table.
- **Dashboard** (`dashboard.dfy`): the low-stock list and count, the bar chart's data,
  the CSV export text and the PDF cell highlight.
- **CategoriesCrud** (`categories_crud.dfy`): adding and deleting categories.

ProductCrud and CategoriesCrud are classes whose fields are their React state, and each
of their handlers is a method. A handler that awaits the server takes the server's answer
as a parameter, and returns the request it sends as a value. The Dashboard, whose only
state is the fetched product list, is a set of functions of that list: its card count,
chart data, CSV text and PDF table. The list transforms and derivations are functions
over sequences of rows, and lemmas state what they guarantee.

Supporting modules:

- `js_strings.dfy` models `trim`, `toLowerCase`, `includes`, `split` and `join`.
- `js_numbers.dfy` models the JavaScript values that reach a comparison (`undefined`,
  `null`, integral numbers, strings). It also models `String(n)`, `Number(s)`, `isNaN`
  and `<`/`<=` with NaN.
- `rows.dfy` models the rows as the server returns them. Postgres folds the column
  `minStock` to `minstock`, and integer columns may be null.
- `seqs.dfy` models `filter`, the order-preserving subsequence relation and distinct keys.
- `options.dfy` defines `Option`.

Behaviour kept as the code has it:

- A quantity of 0 is rejected because the test is `<= 0`, although its message reads
  ">= 0". A minimum stock of 0 is accepted (`ZeroQuantityRejectedZeroMinStockAccepted`).
- The load mapping copies `minstock` into a new property `minStock`. Rows stored by `save`
  keep the server's shape, so their `minStock` is `undefined`. The table compares against
  `minStock`, so a freshly created or updated product is never shown in red, whatever its
  stock (`Created`, `Updated`).
- Because such a row's `minStock` is `undefined` and `isNaN(undefined)` holds, loading a
  product just created or updated and saving it again always fails with "O estoque mínimo
  deve ser >= 0" until the minimum stock is typed again (`EditAfterSaveRejected`).
  Products loaded as the server listed them do not have this problem (`LoadListedMinStock`).
- The update filter compares entries with the form's id, not with the returned row's id.
  The returned row is always put first.
- Categories are appended at the end, while products are put in front.
- The CSV text has no quoting or escaping. It reads back exactly when no name, unit or
  category contains `,` or a line feed (`CsvRoundTripIff`).
- The code has no CSV escaping, no locale-aware number formatting, no
  category-distribution chart and no connection retry, and the model adds none.

## Model

| member | source | states |
|---|---|---|
| `Seqs.Filter` | crud/frontend/src/components/dashboard/Dashboard.jsx:42 | `filter` keeps exactly the elements satisfying the predicate, as an order-preserving subsequence, never longer than the input |
| `Seqs.FilterMultiplicity` | crud/frontend/src/components/dashboard/Dashboard.jsx:42 | each kept element occurs as often as in the input; rejected ones do not occur |
| `JsStrings.Trim` | crud/frontend/src/components/product/ProductCrud.jsx:80-83 | `trim` drops the leading and trailing white space and line terminators; `TrimEmptyIff` says when the result is empty |
| `JsStrings.TrimEmptyIff` | crud/frontend/src/components/product/ProductCrud.jsx:80-83 | `s.trim()` is empty exactly when `s` is white space only |
| `JsStrings.ToLower` | crud/frontend/src/components/product/ProductCrud.jsx:135-142 | lower-casing maps every character and keeps the length |
| `JsStrings.ToLowerIdempotent` | crud/frontend/src/components/product/ProductCrud.jsx:135-142 | lower-casing twice equals lower-casing once |
| `JsStrings.Includes` | crud/frontend/src/components/product/ProductCrud.jsx:143-148 | `includes` is true exactly when the query occurs at some offset |
| `JsStrings.Join` | crud/frontend/src/components/dashboard/Dashboard.jsx:75-76 | `join` with a one-character separator; `SplitJoin` and `JoinSplit` make `Split` its inverse on separator-free parts |
| `JsStrings.SplitJoin` | crud/frontend/src/components/dashboard/Dashboard.jsx:75-76 | splitting a join of separator-free parts gives the parts back |
| `JsStrings.JoinSplit` | crud/frontend/src/components/dashboard/Dashboard.jsx:75-76 | joining the parts of a split gives the string back |
| `JsNumbers.IntToString` | crud/frontend/src/components/dashboard/Dashboard.jsx:66-73 | `String(n)` of an integer is non-empty and made of digits and an optional minus sign; `IntToStringRoundTrip` reads it back |
| `JsNumbers.StringToNumber` | crud/frontend/src/components/product/ProductCrud.jsx:87 | `Number(s)` of a string: surrounding white space ignored, blank is 0, an optional sign and decimal digits give their value, anything else is NaN; `IntToStringRoundTrip` is its partner |
| `JsNumbers.ToNumber` | crud/frontend/src/components/product/ProductCrud.jsx:87 | `Number(v)`: `undefined` is NaN, `null` is 0, a string is read by `StringToNumber` |
| `JsNumbers.IsNaN` | crud/frontend/src/components/product/ProductCrud.jsx:87 | `isNaN(v)` holds exactly when `Number(v)` is NaN |
| `JsNumbers.LessEq` | crud/frontend/src/components/product/ProductCrud.jsx:87 | `a <= b` compares the two numbers and is false when either is NaN; `QuantityErrorIff` and `PdfHighlightIsLowStock` state its uses |
| `JsNumbers.Less` | crud/frontend/src/components/product/ProductCrud.jsx:92 | `a < b` compares the two numbers and is false when either is NaN; `MinStockErrorIff` states its use |
| `JsNumbers.IntToStringRoundTrip` | crud/frontend/src/components/dashboard/Dashboard.jsx:103-104 | `Number(String(n))` is `n` |
| `Rows.IsLowStock` | crud/frontend/src/components/dashboard/Dashboard.jsx:42 | `p.quantity <= p.minstock` with null read as 0; `LowStockProducts` and `Listing` state where it is used |
| `Dashboard.LowStockProducts` | crud/frontend/src/components/dashboard/Dashboard.jsx:42 | the low-stock list is the order-preserving subsequence of products with `quantity <= minstock` |
| `Dashboard.LowStockCount` | crud/frontend/src/components/dashboard/Dashboard.jsx:41-43 | the count never exceeds `totalProducts`, and is 0 exactly when no product is low on stock |
| `Dashboard.BarColours` | crud/frontend/src/components/dashboard/Dashboard.jsx:51-53 | one colour per product; `#dc3545` exactly for low-stock products, `#3c8a7f` otherwise |
| `Dashboard.Chart` | crud/frontend/src/components/dashboard/Dashboard.jsx:45-61 | labels, quantities, colours and minimum stocks all have the list's length and are index-aligned with it |
| `Dashboard.RedBarsAreLowStockCount` | crud/frontend/src/components/dashboard/Dashboard.jsx:43-53 | the number of red bars equals the low-stock count |
| `Dashboard.ExportFields` | crud/frontend/src/components/dashboard/Dashboard.jsx:66-73 | a product exports six fields, with name, unit and category in columns 2 to 4 |
| `Dashboard.ExportFieldsAvoidSeparators` | crud/frontend/src/components/dashboard/Dashboard.jsx:66-73 | when name, unit and category hold no `,` or line feed, no exported field does, since the numeric fields are digits and minus signs only |
| `Dashboard.ExportedNumbersReadBack` | crud/frontend/src/components/dashboard/Dashboard.jsx:85-92 | `Number` of the id, quantity and minimum-stock texts gives the product's numbers back, with null read as 0 |
| `Dashboard.CsvRows` | crud/frontend/src/components/dashboard/Dashboard.jsx:64-74 | the CSV has the fixed header row, then one row per product in list order |
| `Dashboard.Csv` | crud/frontend/src/components/dashboard/Dashboard.jsx:64-76 | the rows joined by `,` and the lines by a line feed; `CsvRoundTripIff` says exactly when it reads back as `CsvRows` |
| `Dashboard.CsvRoundTrip` | crud/frontend/src/components/dashboard/Dashboard.jsx:63-76 | if no text field holds `,` or a line feed, splitting the CSV by lines and then by commas gives the header and the product rows |
| `Dashboard.CsvRoundTripIff` | crud/frontend/src/components/dashboard/Dashboard.jsx:75-76 | the CSV reads back exactly when no text field holds `,` or a line feed |
| `Dashboard.TableData` | crud/frontend/src/components/dashboard/Dashboard.jsx:85-92 | the PDF body has one row per product, with the same fields as the CSV |
| `Dashboard.CellTextColour` | crud/frontend/src/components/dashboard/Dashboard.jsx:101-106 | the colour `didParseCell` gives a cell; `PdfHighlightIsLowStock` says it is set only in the body quantity column, exactly for low-stock products |
| `Dashboard.QuantityCellNumber` | crud/frontend/src/components/dashboard/Dashboard.jsx:103 | `Number` of a quantity cell's text is the product's quantity |
| `Dashboard.PdfHighlightIsLowStock` | crud/frontend/src/components/dashboard/Dashboard.jsx:101-106 | a PDF cell is coloured only in the body's quantity column, and there exactly for low-stock products |
| `ProductCrud.ErrorsFor` | crud/frontend/src/components/product/ProductCrud.jsx:78-93 | the messages `validate` builds for a form; the three `…ErrorIff` lemmas and `ValidateAcceptsIff` state when each is empty |
| `ProductCrud.TextErrorIff` | crud/frontend/src/components/product/ProductCrud.jsx:80-83 | a name, category or unit passes exactly when it has a non-white-space character |
| `ProductCrud.QuantityErrorIff` | crud/frontend/src/components/product/ProductCrud.jsx:85-88 | the quantity passes exactly when it is not blank and holds a number above 0 |
| `ProductCrud.MinStockErrorIff` | crud/frontend/src/components/product/ProductCrud.jsx:90-93 | the minimum stock passes exactly when it is not blank and holds a number of at least 0 |
| `ProductCrud.ValidateAcceptsIff` | crud/frontend/src/components/product/ProductCrud.jsx:77-96 | every rebuilt message is empty exactly when the form is acceptable |
| `ProductCrud.BlankTextRejected` | crud/frontend/src/components/product/ProductCrud.jsx:80-83 | a white-space-only name, category or unit gets its "required" message |
| `ProductCrud.ZeroQuantityRejectedZeroMinStockAccepted` | crud/frontend/src/components/product/ProductCrud.jsx:85-93 | quantity 0 is rejected, typed or loaded; minimum stock 0 is accepted |
| `ProductCrud.WithField` | crud/frontend/src/components/product/ProductCrud.jsx:64-69 | editing sets the named input to the typed text; the id and other inputs keep their values |
| `ProductCrud.WithoutError` | crud/frontend/src/components/product/ProductCrud.jsx:70-74 | the named message becomes empty; the other messages keep their values |
| `ProductCrud.FormOf` | crud/frontend/src/components/product/ProductCrud.jsx:50-52 | loading a product puts its id, its name, category and unit in the form, puts its quantity column in as it is (null stays null), and takes the entry's `minStock` property as it is |
| `ProductCrud.IsEditing` | crud/frontend/src/components/product/ProductCrud.jsx:106 | `if (product.id)`: the form holds an id other than 0; `Save` sends a PUT exactly then |
| `ProductCrud.LoadListedMinStock` | crud/frontend/src/components/product/ProductCrud.jsx:40-52 | a product loaded as the server listed it passes the minimum-stock check exactly when its `minstock` is set and not negative |
| `ProductCrud.EditAfterSaveRejected` | crud/frontend/src/components/product/ProductCrud.jsx:50-52 | the product a create or update just put first loads with `minStock` undefined, so `validate` rejects it with the minimum-stock message whatever the row |
| `ProductCrud.StyledLowStock` | crud/frontend/src/components/product/ProductCrud.jsx:376-377 | `p.quantity <= p.minStock` on a list entry; `Listing` says it agrees with the low-stock test for fetched rows, `Created` and `Updated` that it is false for saved ones |
| `ProductCrud.Listing` | crud/frontend/src/components/product/ProductCrud.jsx:40-43 | the load mapping keeps the rows in order, and a loaded product is styled red exactly when it is low on stock |
| `ProductCrud.Created` | crud/frontend/src/components/product/ProductCrud.jsx:111-112 | after a create, the returned row comes first and the old list follows; the length grows by one; the new row is not styled red |
| `ProductCrud.Removed` | crud/frontend/src/components/product/ProductCrud.jsx:124 | after a delete, no entry has the id, and the other entries stay in their relative order |
| `ProductCrud.RemovedMultiplicity` | crud/frontend/src/components/product/ProductCrud.jsx:124 | a delete keeps every copy of each entry with another id and drops every entry with the id |
| `ProductCrud.Updated` | crud/frontend/src/components/product/ProductCrud.jsx:107-108 | after an update, the returned row comes first; the rest are the old entries without the form's id, in order |
| `ProductCrud.UpdateLeavesOneEntry` | crud/frontend/src/components/product/ProductCrud.jsx:107-108 | if the returned row has the form's id, exactly one entry has that id, and distinct ids stay distinct |
| `ProductCrud.CreateThenDeleteRestores` | crud/frontend/src/components/product/ProductCrud.jsx:111-124 | a create with a new id leaves exactly one entry with that id; deleting that id restores the old list |
| `ProductCrud.CreateKeepsIdsDistinct` | crud/frontend/src/components/product/ProductCrud.jsx:111-112 | a create with a new id keeps the ids distinct |
| `ProductCrud.DeleteKeepsIdsDistinct` | crud/frontend/src/components/product/ProductCrud.jsx:124 | a delete keeps the ids distinct |
| `ProductCrud.Query` | crud/frontend/src/components/product/ProductCrud.jsx:135-137 | the search text trimmed and lower-cased; `BlankSearchKeepsAll` says a white-space search becomes the empty query that every product matches |
| `ProductCrud.Matches` | crud/frontend/src/components/product/ProductCrud.jsx:138-148 | a product matches when its lower-cased name, quantity text, lower-cased category or lower-cased unit includes the query; `Search` keeps exactly those |
| `ProductCrud.Search` | crud/frontend/src/components/product/ProductCrud.jsx:134-150 | the result is the order-preserving subsequence of products whose lower-cased name, quantity text, lower-cased category or lower-cased unit includes the trimmed, lower-cased query |
| `ProductCrud.BlankSearchKeepsAll` | crud/frontend/src/components/product/ProductCrud.jsx:135-148 | an empty or white-space query shows every product |
| `ProductCrud.ProductCrud.constructor` | crud/frontend/src/components/product/ProductCrud.jsx:27-34 | initial state: empty form, no messages, empty list and search, dialog closed |
| `ProductCrud.ProductCrud.Fetched` | crud/frontend/src/components/product/ProductCrud.jsx:38-46 | the list becomes the mapped fetched rows, and the categories become the fetched ones |
| `ProductCrud.ProductCrud.Load` | crud/frontend/src/components/product/ProductCrud.jsx:50-52 | the form becomes the chosen product |
| `ProductCrud.ProductCrud.Clear` | crud/frontend/src/components/product/ProductCrud.jsx:54-57 | the form and the messages return to `initialProduct` |
| `ProductCrud.ProductCrud.ConfirmRemove` | crud/frontend/src/components/product/ProductCrud.jsx:59-62 | the dialog opens for the chosen product |
| `ProductCrud.ProductCrud.CancelRemove` | crud/frontend/src/components/product/ProductCrud.jsx:439 | the dialog closes; the chosen product is kept |
| `ProductCrud.ProductCrud.SetSearch` | crud/frontend/src/components/product/ProductCrud.jsx:326 | the search text becomes the typed text |
| `ProductCrud.ProductCrud.UpdateField` | crud/frontend/src/components/product/ProductCrud.jsx:64-75 | only the named input changes, and only its message is cleared |
| `ProductCrud.ProductCrud.Validate` | crud/frontend/src/components/product/ProductCrud.jsx:77-97 | the messages are rebuilt from scratch for the current form; the result is true exactly when all are empty |
| `ProductCrud.ProductCrud.Save` | crud/frontend/src/components/product/ProductCrud.jsx:99-119 | an invalid form sends nothing and keeps list and form; otherwise PUT with an id and POST without; a failure keeps list and form; a success merges the row and clears the form |
| `ProductCrud.ProductCrud.Submit` | crud/frontend/src/components/product/ProductCrud.jsx:105-118 | for a validated form: PUT with an id and POST without; a failure changes nothing; a success merges the returned row, clears the form and its messages |
| `ProductCrud.ProductCrud.RemoveConfirmed` | crud/frontend/src/components/product/ProductCrud.jsx:121-132 | a success removes every entry with the chosen id; a failure keeps the list; either way the dialog closes and the choice is cleared |
| `ProductCrud.ProductCrud.FilteredList` | crud/frontend/src/components/product/ProductCrud.jsx:134-150 | the table shows the search result over the current list |
| `CategoriesCrud.AlertText` | crud/frontend/src/components/categories/CategoriesCrud.jsx:26 | the alert is the server's error text when there is one, else "Erro ao criar categoria" |
| `CategoriesCrud.Appended` | crud/frontend/src/components/categories/CategoriesCrud.jsx:23 | the added category goes last; the old list is kept in front; the length grows by one |
| `CategoriesCrud.WithoutCategory` | crud/frontend/src/components/categories/CategoriesCrud.jsx:34 | no category has the id any more, and the others stay in their order |
| `CategoriesCrud.WithoutCategoryMultiplicity` | crud/frontend/src/components/categories/CategoriesCrud.jsx:34 | a delete keeps every copy of each category with another id and drops every category with the id |
| `CategoriesCrud.AddThenRemoveRestores` | crud/frontend/src/components/categories/CategoriesCrud.jsx:22-34 | deleting the id an add just appended restores the old list |
| `CategoriesCrud.UpdatesKeepIdsDistinct` | crud/frontend/src/components/categories/CategoriesCrud.jsx:23-34 | an add with a new id, and any delete, keep the ids distinct |
| `CategoriesCrud.CategoriesCrud.constructor` | crud/frontend/src/components/categories/CategoriesCrud.jsx:12-13 | initial state: no categories, empty input |
| `CategoriesCrud.CategoriesCrud.Fetched` | crud/frontend/src/components/categories/CategoriesCrud.jsx:15-17 | the list becomes the fetched categories |
| `CategoriesCrud.CategoriesCrud.SetNewCategory` | crud/frontend/src/components/categories/CategoriesCrud.jsx:57 | the input becomes the typed text |
| `CategoriesCrud.CategoriesCrud.AddCategory` | crud/frontend/src/components/categories/CategoriesCrud.jsx:19-28 | a blank name sends nothing and changes nothing; a success appends the category and empties the input; a failure changes nothing and shows an alert |
| `CategoriesCrud.CategoriesCrud.RemoveCategory` | crud/frontend/src/components/categories/CategoriesCrud.jsx:30-38 | without confirmation nothing happens; a success removes the id and keeps the order; a failure keeps the list |

## Left out

- crud/backend/server.js is left out. Its routes are single SQL statements run through a
  library that is not shown. Ordering by id, serial ids and unique category names are
  enforced by Postgres.
- `highlightText` is left out. It builds a `RegExp` from the unescaped query and returns
  markup, so its behaviour depends on the regular-expression engine.
- Rendering, animation, toasts, the confirmation modal, navigation, routes, the home page
  and the login gate are left out as presentation only.
- Library effects are left out: `Blob`/`saveAs`, jsPDF and autoTable layout, chart
  drawing, axios. Only the data these libraries receive is modelled. A failed initial
  fetch is left out: its rejection is not handled and the state stays as it was. The
  `loading` flag is left out too.
- `JsNumbers.StringToNumber` covers only an optional sign followed by decimal digits,
  with surrounding white space. JavaScript also accepts fractions, exponents,
  hexadecimal and `Infinity`. Numbers are integers. As a result, a typed quantity or minimum stock such as
  `2.5` or `1e2`, which passes `validate` in the code and is sent, is rejected by the model
  with the "deve ser >= 0" message, and `Save` sends nothing for it.
- `JsStrings.LowerChar` lower-cases only ASCII and Latin-1 capital letters. Other
  Unicode case mappings are left out.
- A SQL NULL in a text column is modelled as the empty string. In the code, loading such
  a product and saving it makes `trim` throw inside `validate`. The model reports a
  "required" message instead.
- The text autoTable puts in a cell is taken to be the value's decimal text, or empty
  for null.
- Every handler that awaits the server runs to completion in one step, with nothing in
  between. In the code the user can type, or `load` another product, while `save` awaits
  its answer; `clear()` then wipes that newer form, and the update filter still uses the
  `product.id` captured when `save` began (ProductCrud.jsx:106-115). The model does not
  capture these interleavings, nor a `removeConfirmed` racing with another delete.
- An update that the server answers with an empty body (the id no longer exists) is
  left out. `Save` takes the answer as a row or as a failure.
- `JsNumbers.LessEq` and `JsNumbers.Less` require at most one string operand. The code
  never compares two strings, and string-to-string comparison is left out.
