/** The rows the server sends back, as the client receives them. Postgres folds the
    unquoted column name `minStock` to `minstock`, so that is the field name that arrives.
    The columns are nullable: a SQL NULL integer arrives as `null` (here `None`); a NULL
    text column is taken to be the empty string, which every modelled use treats alike. */
module Rows {
  import opened Options
  import opened JsNumbers

  /** A row of table `products`. */
  datatype Row = Row(id: int, name: string, quantity: Option<int>, category: string,
                     unit: string, minstock: Option<int>)

  /** A row of table `categories`. */
  datatype Category = Category(id: int, name: string)

  /** The JavaScript value of a nullable integer column. */
  function Column(c: Option<int>): (v: JsValue)
    ensures !v.Undefined? && !v.Text?
    ensures ToNumber(v) == Some(if c.Some? then c.value else 0)
  {
    if c.Some? then Number(c.value) else Null
  }

  /** The text of a nullable integer column when it is joined or printed in a table
      (`[x].join()` and `String(x ?? "")`): empty for null, decimal digits otherwise. */
  function ColumnText(c: Option<int>): (t: string)
    ensures forall i :: 0 <= i < |t| ==> IsDigit(t[i]) || t[i] == '-'
  {
    if c.Some? then IntToString(c.value) else ""
  }

  /** Converting a column's text back with `Number` gives the column's numeric value. */
  lemma ColumnTextNumber(c: Option<int>)
    ensures StringToNumber(ColumnText(c)) == ToNumber(Column(c))
  {
    if c.Some? {
      IntToStringRoundTrip(c.value);
    }
  }

  /** The derived low-stock property: `quantity <= minstock`, compared as JavaScript
      compares a number or null with a number or null (null counts as 0). */
  predicate IsLowStock(r: Row)
  {
    LessEq(Column(r.quantity), Column(r.minstock))
  }
}
