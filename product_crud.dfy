/** The product screen: a form with per-field validation, the list of products kept in
    step with the server after each create, update and delete without fetching it again,
    and the search over that list. Server answers are parameters of the methods that
    await them; the requests sent are their results. */
module ProductCrud {
  import opened Options
  import opened Seqs
  import opened JsStrings
  import opened JsNumbers
  import opened Rows

  /** The form (`product`): its five inputs and, once a listed product has been loaded
      into it for editing, that product's id. */
  datatype Form = Form(id: Option<int>, name: string, quantity: JsValue, category: string,
                       unit: string, minStock: JsValue)

  /** `initialProduct` as the starting form: every input empty, no id. */
  const InitialProduct: Form := Form(None, "", Text(""), "", "", Text(""))

  /** The error messages shown under the inputs (`errors`); "" means no error. */
  datatype Errors = Errors(name: string, quantity: string, category: string, unit: string,
                           minStock: string)

  /** `initialProduct` as the error record: every message empty. */
  const NoErrors: Errors := Errors("", "", "", "", "")

  /** An input of the form, named as its `name` attribute is. */
  datatype Field = NameField | QuantityField | CategoryField | UnitField | MinStockField

  /** A product held in `list`: the row the server sent, and the `minStock` property that
      the load mapping adds. Rows stored by `save` keep the server's shape, so for them
      `minStock` is `undefined`. */
  datatype Item = Item(row: Row, minStock: JsValue)

  /** The request `save` sends, if any. */
  datatype Request = NoRequest | Post(body: Form) | Put(id: int, body: Form)

  const NameRequired: string := "O nome é obrigatório"
  const CategoryRequired: string := "A categoria é obrigatória"
  const UnitRequired: string := "A unidade é obrigatória"
  const QuantityRequired: string := "A quantidade é obrigatória"
  const QuantityNotPositive: string := "A quantidade deve ser >= 0"
  const MinStockRequired: string := "O estoque mínimo é obrigatório"
  const MinStockNegative: string := "O estoque mínimo deve ser >= 0"

  // ---------------------------------------------------------------- validation

  /** `value === "" || value === null`. */
  predicate IsBlank(v: JsValue)
  {
    v == Text("") || v == Null
  }

  /** The message for a text input that must not be blank after trimming. */
  function TextError(s: string, message: string): string
  {
    if Trim(s) == "" then message else ""
  }

  /** The message for the quantity: required, then a number greater than 0. */
  function QuantityError(v: JsValue): string
  {
    if IsBlank(v) then QuantityRequired
    else if IsNaN(v) || LessEq(v, Number(0)) then QuantityNotPositive
    else ""
  }

  /** The message for the minimum stock: required, then a number not below 0. */
  function MinStockError(v: JsValue): string
  {
    if IsBlank(v) then MinStockRequired
    else if IsNaN(v) || Less(v, Number(0)) then MinStockNegative
    else ""
  }

  /** The error record `validate` builds from `initialProduct` for a form. */
  function ErrorsFor(f: Form): Errors
  {
    Errors(TextError(f.name, NameRequired), QuantityError(f.quantity),
           TextError(f.category, CategoryRequired), TextError(f.unit, UnitRequired),
           MinStockError(f.minStock))
  }

  /** `Object.values(errors).every((e) => e === "")`. */
  predicate AllEmpty(e: Errors)
  {
    e.name == "" && e.quantity == "" && e.category == "" && e.unit == "" && e.minStock == ""
  }

  /** The input has a character other than white space. */
  predicate HasText(s: string)
  {
    exists i :: 0 <= i < |s| && !IsWhitespace(s[i])
  }

  /** The number a numeric input holds: none when it is blank or not a number. */
  function NumberIn(v: JsValue): Option<int>
  {
    if IsBlank(v) then None else ToNumber(v)
  }

  /** What the form must hold to be sent: a name, a category and a unit that are not
      only white space, a quantity above 0 and a minimum stock of at least 0. */
  predicate Acceptable(f: Form)
  {
    HasText(f.name) && HasText(f.category) && HasText(f.unit) &&
    NumberIn(f.quantity).Some? && NumberIn(f.quantity).value > 0 &&
    NumberIn(f.minStock).Some? && NumberIn(f.minStock).value >= 0
  }

  /** A text input passes exactly when it has a character other than white space. */
  lemma TextErrorIff(s: string, message: string)
    requires message != ""
    ensures TextError(s, message) == "" <==> HasText(s)
  {
    TrimEmptyIff(s);
  }

  /** The quantity passes exactly when it holds a number above 0. */
  lemma QuantityErrorIff(v: JsValue)
    ensures QuantityError(v) == "" <==> NumberIn(v).Some? && NumberIn(v).value > 0
  {
  }

  /** The minimum stock passes exactly when it holds a number of at least 0. */
  lemma MinStockErrorIff(v: JsValue)
    ensures MinStockError(v) == "" <==> NumberIn(v).Some? && NumberIn(v).value >= 0
  {
  }

  /** `validate` succeeds exactly for the acceptable forms. */
  lemma ValidateAcceptsIff(f: Form)
    ensures AllEmpty(ErrorsFor(f)) <==> Acceptable(f)
  {
    TextErrorIff(f.name, NameRequired);
    TextErrorIff(f.category, CategoryRequired);
    TextErrorIff(f.unit, UnitRequired);
    QuantityErrorIff(f.quantity);
    MinStockErrorIff(f.minStock);
  }

  /** A name, category or unit of white space only gets its "required" message. */
  lemma BlankTextRejected(f: Form)
    ensures !HasText(f.name) ==> ErrorsFor(f).name == NameRequired
    ensures !HasText(f.category) ==> ErrorsFor(f).category == CategoryRequired
    ensures !HasText(f.unit) ==> ErrorsFor(f).unit == UnitRequired
  {
    TrimEmptyIff(f.name);
    TrimEmptyIff(f.category);
    TrimEmptyIff(f.unit);
  }

  /** A quantity of 0 is rejected (with a message that reads ">= 0"), while a minimum
      stock of 0 is accepted, whether typed or loaded from a row. */
  lemma ZeroQuantityRejectedZeroMinStockAccepted()
    ensures QuantityError(Number(0)) == QuantityNotPositive
    ensures QuantityError(Text("0")) == QuantityNotPositive
    ensures MinStockError(Number(0)) == ""
    ensures MinStockError(Text("0")) == ""
  {
    assert TrimStart("0") == "0";
    assert TrimEnd("0") == "0";
    assert StringToNumber("0") == Some(0) by {
      assert ParseDecimal("0") == Some(DigitsValue("0"));
      assert DigitsValue("0") == 0;
    }
  }

  // ---------------------------------------------------------------- editing

  /** The value of an input as the form holds it. */
  function FieldOf(f: Form, field: Field): JsValue
  {
    match field
    case NameField => Text(f.name)
    case QuantityField => f.quantity
    case CategoryField => Text(f.category)
    case UnitField => Text(f.unit)
    case MinStockField => f.minStock
  }

  /** The message shown under an input. */
  function ErrorOf(e: Errors, field: Field): string
  {
    match field
    case NameField => e.name
    case QuantityField => e.quantity
    case CategoryField => e.category
    case UnitField => e.unit
    case MinStockField => e.minStock
  }

  /** `{ ...prev, [name]: value }` on the form: the named input now holds the typed
      text, and the id and every other input are as before. */
  function WithField(f: Form, field: Field, value: string): (g: Form)
    ensures FieldOf(g, field) == Text(value)
    ensures g.id == f.id
    ensures forall other :: other != field ==> FieldOf(g, other) == FieldOf(f, other)
  {
    match field
    case NameField => f.(name := value)
    case QuantityField => f.(quantity := Text(value))
    case CategoryField => f.(category := value)
    case UnitField => f.(unit := value)
    case MinStockField => f.(minStock := Text(value))
  }

  /** `{ ...prev, [name]: "" }` on the errors: the named message is cleared and every
      other message is as before. */
  function WithoutError(e: Errors, field: Field): (d: Errors)
    ensures ErrorOf(d, field) == ""
    ensures forall other :: other != field ==> ErrorOf(d, other) == ErrorOf(e, other)
  {
    match field
    case NameField => e.(name := "")
    case QuantityField => e.(quantity := "")
    case CategoryField => e.(category := "")
    case UnitField => e.(unit := "")
    case MinStockField => e.(minStock := "")
  }

  /** The form `load` fills from a listed product, for editing it: the product's id, its
      texts as they are, its quantity column, and the entry's `minStock` property, which
      is `undefined` for a row that `save` stored (see `EditAfterSaveRejected`). */
  function FormOf(it: Item): (f: Form)
    ensures f.id == Some(it.row.id)
    ensures f.name == it.row.name && f.category == it.row.category && f.unit == it.row.unit
    ensures f.quantity == Column(it.row.quantity)
    ensures f.minStock == it.minStock
  {
    Form(Some(it.row.id), it.row.name, Column(it.row.quantity), it.row.category, it.row.unit,
         it.minStock)
  }

  /** `if (product.id)`: the form edits a listed product (an id of 0 is falsy). */
  predicate IsEditing(f: Form)
  {
    f.id.Some? && f.id.value != 0
  }

  // ---------------------------------------------------------------- the list

  /** The table's red quantity style: `p.quantity <= p.minStock`. */
  predicate StyledLowStock(it: Item)
  {
    LessEq(Column(it.row.quantity), it.minStock)
  }

  /** The load mapping `{ ...p, minStock: p.minstock }` over the fetched rows: the rows in
      server order, each styled red exactly when it is low on stock. */
  function Listing(rows: seq<Row>): (items: seq<Item>)
    ensures |items| == |rows|
    ensures forall i :: 0 <= i < |rows| ==>
              items[i].row == rows[i] && (StyledLowStock(items[i]) <==> IsLowStock(rows[i]))
  {
    seq(|rows|, i requires 0 <= i < |rows| => Item(rows[i], Column(rows[i].minstock)))
  }

  /** How many entries of the list carry the id. */
  function IdCount(list: seq<Item>, id: int): nat
  {
    |Filter((it: Item) => it.row.id == id, list)|
  }

  /** The ids in the list are pairwise different. */
  predicate DistinctIds(list: seq<Item>)
  {
    DistinctKeys((it: Item) => it.row.id, list)
  }

  /** The list after a successful create: the returned row, unrenamed, in front of the
      old list; it is never styled red, whatever its stock. */
  function Created(list: seq<Item>, row: Row): (r: seq<Item>)
    ensures |r| == |list| + 1 && r[0].row == row && r[1..] == list
    ensures !StyledLowStock(r[0])
  {
    [Item(row, Undefined)] + list
  }

  /** `list.filter((p) => p.id !== id)`: the entries with other ids, in their order;
      `RemovedMultiplicity` adds that repeated entries keep all their copies. */
  function Removed(list: seq<Item>, id: int): (r: seq<Item>)
    ensures IsSubsequence(r, list)
    ensures forall it :: it in r <==> it in list && it.row.id != id
    ensures IdCount(r, id) == 0
  {
    var r := Filter((it: Item) => it.row.id != id, list);
    FilterKeepsNone((it: Item) => it.row.id == id, r);
    r
  }

  /** The list after a successful update of the product with the form's id: the returned
      row in front, then the old entries whose id differs from the form's, in their
      order (`Removed`, with every copy kept by `RemovedMultiplicity`); so the edited
      product moves to the top and is not styled red. */
  function Updated(list: seq<Item>, id: int, row: Row): (r: seq<Item>)
    ensures |r| >= 1 && r[0].row == row && !StyledLowStock(r[0])
    ensures IsSubsequence(r[1..], list)
    ensures forall it :: it in r[1..] <==> it in list && it.row.id != id
  {
    [Item(row, Undefined)] + Removed(list, id)
  }

  /** Every entry with another id keeps all its copies through a delete; entries with
      the id are all gone. */
  lemma RemovedMultiplicity(list: seq<Item>, id: int, x: Item)
    ensures multiset(Removed(list, id))[x] == if x.row.id != id then multiset(list)[x] else 0
  {
    FilterMultiplicity((it: Item) => it.row.id != id, list, x);
  }

  /** When the server returns the row under the form's id, exactly one entry carries
      that id after the update, and distinct ids stay distinct. */
  lemma UpdateLeavesOneEntry(list: seq<Item>, id: int, row: Row)
    requires row.id == id
    ensures IdCount(Updated(list, id, row), id) == 1
    ensures DistinctIds(list) ==> DistinctIds(Updated(list, id, row))
  {
    var rest := Removed(list, id);
    var hasId := (it: Item) => it.row.id == id;
    FilterAppend(hasId, [Item(row, Undefined)], rest);
    assert Updated(list, id, row) == [Item(row, Undefined)] + rest;
    if DistinctIds(list) {
      SubsequenceKeepsDistinctKeys((it: Item) => it.row.id, rest, list);
      var r := Updated(list, id, row);
      forall j | 0 < j < |r| ensures r[0].row.id != r[j].row.id {
        assert r[j] in rest;
      }
    }
  }

  /** Deleting the id a create just added restores the old list, when the old list did
      not have that id; in between, exactly one entry carries it. */
  lemma CreateThenDeleteRestores(list: seq<Item>, row: Row)
    requires forall it :: it in list ==> it.row.id != row.id
    ensures IdCount(Created(list, row), row.id) == 1
    ensures Removed(Created(list, row), row.id) == list
  {
    var other := (it: Item) => it.row.id != row.id;
    var hasId := (it: Item) => it.row.id == row.id;
    FilterAppend(other, [Item(row, Undefined)], list);
    FilterKeepsAll(other, list);
    FilterAppend(hasId, [Item(row, Undefined)], list);
    FilterKeepsNone(hasId, list);
  }

  /** A create whose returned id is new keeps the ids distinct. */
  lemma CreateKeepsIdsDistinct(list: seq<Item>, row: Row)
    requires DistinctIds(list)
    requires forall it :: it in list ==> it.row.id != row.id
    ensures DistinctIds(Created(list, row))
  {
    var r := Created(list, row);
    forall i, j | 0 <= i < j < |r| ensures r[i].row.id != r[j].row.id {
      if i == 0 {
        assert r[j] in list;
      } else {
        assert r[i] == list[i - 1] && r[j] == list[j - 1];
      }
    }
  }

  /** A delete keeps the ids distinct. */
  lemma DeleteKeepsIdsDistinct(list: seq<Item>, id: int)
    requires DistinctIds(list)
    ensures DistinctIds(Removed(list, id))
  {
    SubsequenceKeepsDistinctKeys((it: Item) => it.row.id, Removed(list, id), list);
  }

  /** Loading a product as the server listed it: its minimum stock passes `validate`
      exactly when the row's `minstock` is set and not negative (null is "required"). */
  lemma LoadListedMinStock(rows: seq<Row>, i: int)
    requires 0 <= i < |rows|
    ensures MinStockError(FormOf(Listing(rows)[i]).minStock) == "" <==>
              rows[i].minstock.Some? && rows[i].minstock.value >= 0
  {
    var f := FormOf(Listing(rows)[i]);
    assert f.minStock == Column(rows[i].minstock);
    MinStockErrorIff(f.minStock);
  }

  /** Loading the product a successful create or update just put in front of the list
      gives a form whose minimum stock is `undefined`; `isNaN(undefined)` holds, so
      `validate` rejects that form, whatever the row, until the input is typed again. */
  lemma EditAfterSaveRejected(list: seq<Item>, id: int, row: Row)
    ensures MinStockError(FormOf(Created(list, row)[0]).minStock) == MinStockNegative
    ensures MinStockError(FormOf(Updated(list, id, row)[0]).minStock) == MinStockNegative
    ensures !Acceptable(FormOf(Created(list, row)[0]))
    ensures !Acceptable(FormOf(Updated(list, id, row)[0]))
  {
    ValidateAcceptsIff(FormOf(Created(list, row)[0]));
    ValidateAcceptsIff(FormOf(Updated(list, id, row)[0]));
  }

  // ---------------------------------------------------------------- search

  /** The search text as `filteredList` compares it: trimmed and lower-cased. */
  function Query(search: string): string
  {
    ToLower(Trim(search))
  }

  /** The product matches the query in its lower-cased name, its quantity as text, its
      lower-cased category or its lower-cased unit. */
  predicate Matches(it: Item, q: string)
  {
    Includes(ToLower(it.row.name), q) || Includes(ColumnText(it.row.quantity), q) ||
    Includes(ToLower(it.row.category), q) || Includes(ToLower(it.row.unit), q)
  }

  /** `filteredList`: the products matching the search, in list order. */
  function Search(list: seq<Item>, search: string): (r: seq<Item>)
    ensures IsSubsequence(r, list)
    ensures forall it :: it in r <==> it in list && Matches(it, Query(search))
  {
    Filter((it: Item) => Matches(it, Query(search)), list)
  }

  /** An empty or white-space search shows every product. */
  lemma BlankSearchKeepsAll(list: seq<Item>, search: string)
    requires forall i :: 0 <= i < |search| ==> IsWhitespace(search[i])
    ensures Search(list, search) == list
  {
    TrimEmptyIff(search);
    assert Query(search) == "";
    forall it | it in list ensures Matches(it, "") {
      IncludesEmpty(ToLower(it.row.name));
    }
    FilterKeepsAll((it: Item) => Matches(it, Query(search)), list);
  }

  // ---------------------------------------------------------------- the component

  /** The component's state. */
  class ProductCrud {
    var product: Form
    var list: seq<Item>
    var errors: Errors
    var search: string
    var showConfirm: bool
    var productToDelete: Option<Item>
    var categories: seq<Category>

    constructor ()
      ensures product == InitialProduct && list == [] && errors == NoErrors && search == ""
      ensures !showConfirm && productToDelete == None && categories == []
    {
      product := InitialProduct;
      list := [];
      errors := NoErrors;
      search := "";
      showConfirm := false;
      productToDelete := None;
      categories := [];
    }

    /** The effect's success handler: store the fetched products, each given the
        `minStock` property, and the fetched categories. */
    method Fetched(rows: seq<Row>, fetchedCategories: seq<Category>)
      modifies this`list, this`categories
      ensures list == Listing(rows) && categories == fetchedCategories
    {
      list := Listing(rows);
      categories := fetchedCategories;
    }

    /** `load`: put a listed product into the form for editing. */
    method Load(it: Item)
      modifies this`product
      ensures product == FormOf(it)
    {
      product := FormOf(it);
    }

    /** `clear`: empty form, no messages. */
    method Clear()
      modifies this`product, this`errors
      ensures product == InitialProduct && errors == NoErrors
    {
      product := InitialProduct;
      errors := NoErrors;
    }

    /** `confirmRemove`: open the confirmation for a product. */
    method ConfirmRemove(it: Item)
      modifies this`showConfirm, this`productToDelete
      ensures showConfirm && productToDelete == Some(it)
    {
      showConfirm := true;
      productToDelete := Some(it);
    }

    /** The dialog's cancel: close it; the product chosen for deletion is kept. */
    method CancelRemove()
      modifies this`showConfirm
      ensures !showConfirm
    {
      showConfirm := false;
    }

    /** The search input. */
    method SetSearch(text: string)
      modifies this`search
      ensures search == text
    {
      search := text;
    }

    /** `updateField`: the named input takes the typed text; its message, if any, is
        cleared; no other input or message changes. */
    method UpdateField(field: Field, value: string)
      modifies this`product, this`errors
      ensures product == WithField(old(product), field, value)
      ensures errors == WithoutError(old(errors), field)
    {
      product := WithField(product, field, value);
      if ErrorOf(errors, field) != "" {
        errors := WithoutError(errors, field);
      }
    }

    /** `validate`: rebuild every message from the form, starting from no messages, and
        report whether none is set; by `ValidateAcceptsIff`, that is when the form is
        acceptable. */
    method Validate() returns (ok: bool)
      modifies this`errors
      ensures errors == ErrorsFor(product)
      ensures ok == AllEmpty(errors)
    {
      var p := product;
      var newErrors := NoErrors;
      if Trim(p.name) == "" {
        newErrors := newErrors.(name := NameRequired);
      }
      if Trim(p.category) == "" {
        newErrors := newErrors.(category := CategoryRequired);
      }
      if Trim(p.unit) == "" {
        newErrors := newErrors.(unit := UnitRequired);
      }
      if IsBlank(p.quantity) {
        newErrors := newErrors.(quantity := QuantityRequired);
      } else if IsNaN(p.quantity) || LessEq(p.quantity, Number(0)) {
        newErrors := newErrors.(quantity := QuantityNotPositive);
      }
      if IsBlank(p.minStock) {
        newErrors := newErrors.(minStock := MinStockRequired);
      } else if IsNaN(p.minStock) || Less(p.minStock, Number(0)) {
        newErrors := newErrors.(minStock := MinStockNegative);
      }
      errors := newErrors;
      ok := AllEmpty(newErrors);
    }

    /** `save`, given the server's answer (`None` when the request fails). A form that
        fails validation (see `ValidateAcceptsIff`) sends nothing and keeps the list and the form. Otherwise the
        form is sent as an update when it carries an id and as a create when not; a
        failed request keeps the list and the form; a successful one merges the returned
        row into the list and clears the form. */
    method Save(answer: Option<Row>) returns (request: Request)
      modifies this`errors, this`list, this`product
      ensures errors == (if request.NoRequest? || answer.None? then ErrorsFor(old(product)) else NoErrors)
      ensures request == (if !AllEmpty(ErrorsFor(old(product))) then NoRequest
                          else if IsEditing(old(product)) then Put(old(product).id.value, old(product))
                          else Post(old(product)))
      ensures request.NoRequest? || answer.None? ==> list == old(list) && product == old(product)
      ensures request.Put? && answer.Some? ==>
                list == Updated(old(list), request.id, answer.value) && product == InitialProduct
      ensures request.Post? && answer.Some? ==>
                list == Created(old(list), answer.value) && product == InitialProduct
    {
      var ok := Validate();
      assert product == old(product) && ok == AllEmpty(ErrorsFor(product));
      if !ok {
        request := NoRequest;
        return;
      }
      request := Submit(answer);
    }

    /** The `try` block of `save`, for a form that passed validation: send it as an
        update when it carries an id and as a create when not; on success merge the
        returned row into the list and clear the form; on failure change nothing. */
    method Submit(answer: Option<Row>) returns (request: Request)
      modifies this`errors, this`list, this`product
      ensures request == (if IsEditing(old(product)) then Put(old(product).id.value, old(product))
                          else Post(old(product)))
      ensures answer.None? ==>
                list == old(list) && product == old(product) && errors == old(errors)
      ensures answer.Some? ==> product == InitialProduct && errors == NoErrors
      ensures request.Put? && answer.Some? ==> list == Updated(old(list), request.id, answer.value)
      ensures request.Post? && answer.Some? ==> list == Created(old(list), answer.value)
    {
      if IsEditing(product) {
        request := Put(product.id.value, product);
        if answer.Some? {
          list := Updated(list, product.id.value, answer.value);
          Clear();
        }
      } else {
        request := Post(product);
        if answer.Some? {
          list := Created(list, answer.value);
          Clear();
        }
      }
    }

    /** `removeConfirmed`, given whether the server deleted the product. With a product
        chosen, its id is sent and, on success, every entry with that id leaves the list;
        a failure, or no product chosen (the id lookup throws), keeps the list. Either
        way the dialog closes and the choice is forgotten. */
    method RemoveConfirmed(deleted: bool) returns (request: Option<int>)
      modifies this`list, this`showConfirm, this`productToDelete
      ensures request == (if old(productToDelete).Some? then Some(old(productToDelete).value.row.id) else None)
      ensures list == (if request.Some? && deleted then Removed(old(list), request.value) else old(list))
      ensures !showConfirm && productToDelete == None
    {
      if productToDelete.Some? {
        request := Some(productToDelete.value.row.id);
        if deleted {
          list := Removed(list, request.value);
        }
      } else {
        request := None;
      }
      showConfirm := false;
      productToDelete := None;
    }

    /** `filteredList`, the rows the table shows. */
    function FilteredList(): (r: seq<Item>)
      reads this
      ensures IsSubsequence(r, list)
      ensures forall it :: it in r <==> it in list && Matches(it, Query(search))
    {
      Search(list, search)
    }
  }
}
