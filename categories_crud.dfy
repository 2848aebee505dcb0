/** The category screen: a text input for a new category and the list of categories,
    kept in step with the server after each add and delete without fetching it again.
    Server answers and the user's confirmation are parameters of the methods that
    await them; the requests sent are their results. */
module CategoriesCrud {
  import opened Options
  import opened Seqs
  import opened JsStrings
  import opened Rows

  /** The server's answer to the insert: the stored row, or a failure carrying the
      `error` text of the response body ("" when there is none, or no response). */
  datatype AddAnswer = Added(row: Category) | Failed(error: string)

  /** The alert shown when the insert fails and the answer carries no error text. */
  const DefaultAddError: string := "Erro ao criar categoria"

  /** The alert for a failed insert: the server's error text when it has one, else the
      default; never empty. */
  function AlertText(error: string): (t: string)
    ensures t != ""
    ensures error != "" ==> t == error
    ensures error == "" ==> t == DefaultAddError
  {
    if error != "" then error else DefaultAddError
  }

  /** `[...prev, data]`: the stored category after all the others. */
  function Appended(categories: seq<Category>, row: Category): (r: seq<Category>)
    ensures |r| == |categories| + 1 && r[|categories|] == row && r[..|categories|] == categories
  {
    categories + [row]
  }

  /** `prev.filter((c) => c.id !== id)`: the categories with other ids, in their order;
      `WithoutCategoryMultiplicity` adds that repeated entries keep all their copies. */
  function WithoutCategory(categories: seq<Category>, id: int): (r: seq<Category>)
    ensures IsSubsequence(r, categories)
    ensures forall c :: c in r <==> c in categories && c.id != id
  {
    Filter((c: Category) => c.id != id, categories)
  }

  /** Every category with another id keeps all its copies through a delete; those with
      the id are all gone. */
  lemma WithoutCategoryMultiplicity(categories: seq<Category>, id: int, x: Category)
    ensures multiset(WithoutCategory(categories, id))[x] ==
              if x.id != id then multiset(categories)[x] else 0
  {
    FilterMultiplicity((c: Category) => c.id != id, categories, x);
  }

  /** The category ids are pairwise different. */
  predicate DistinctIds(categories: seq<Category>)
  {
    DistinctKeys((c: Category) => c.id, categories)
  }

  /** Deleting the id an add just appended restores the old list, when the old list
      did not have that id. */
  lemma AddThenRemoveRestores(categories: seq<Category>, row: Category)
    requires forall c :: c in categories ==> c.id != row.id
    ensures WithoutCategory(Appended(categories, row), row.id) == categories
  {
    var other := (c: Category) => c.id != row.id;
    FilterAppend(other, categories, [row]);
    FilterKeepsAll(other, categories);
    assert Filter(other, [row]) == [];
  }

  /** An add whose id is new, and any delete, keep the ids distinct. */
  lemma UpdatesKeepIdsDistinct(categories: seq<Category>, row: Category, id: int)
    requires DistinctIds(categories)
    ensures (forall c :: c in categories ==> c.id != row.id) ==>
              DistinctIds(Appended(categories, row))
    ensures DistinctIds(WithoutCategory(categories, id))
  {
    if forall c :: c in categories ==> c.id != row.id {
      var r := Appended(categories, row);
      forall i, j | 0 <= i < j < |r| ensures r[i].id != r[j].id {
        if j == |categories| {
          assert r[i] in categories;
        } else {
          assert r[i] == categories[i] && r[j] == categories[j];
        }
      }
    }
    SubsequenceKeepsDistinctKeys((c: Category) => c.id, WithoutCategory(categories, id), categories);
  }

  /** The component's state. */
  class CategoriesCrud {
    var categories: seq<Category>
    var newCategory: string

    constructor ()
      ensures categories == [] && newCategory == ""
    {
      categories := [];
      newCategory := "";
    }

    /** The effect's success handler: store the fetched categories. */
    method Fetched(rows: seq<Category>)
      modifies this`categories
      ensures categories == rows
    {
      categories := rows;
    }

    /** The input's change handler. */
    method SetNewCategory(text: string)
      modifies this`newCategory
      ensures newCategory == text
    {
      newCategory := text;
    }

    /** `addCategory`, given the server's answer. A name of white space only sends
        nothing and changes nothing. Otherwise the name, untrimmed, is sent; on success
        the stored category goes to the end of the list and the input is emptied; on
        failure nothing changes and an alert shows the server's error text or the
        default one. */
    method AddCategory(answer: AddAnswer) returns (request: Option<string>, alert: Option<string>)
      modifies this`categories, this`newCategory
      ensures request == (if Trim(old(newCategory)) == "" then None else Some(old(newCategory)))
      ensures request.Some? && answer.Added? ==>
                categories == Appended(old(categories), answer.row) && newCategory == "" &&
                alert == None
      ensures request.None? || answer.Failed? ==>
                categories == old(categories) && newCategory == old(newCategory)
      ensures alert == (if request.Some? && answer.Failed? then Some(AlertText(answer.error)) else None)
    {
      alert := None;
      if Trim(newCategory) == "" {
        request := None;
        return;
      }
      request := Some(newCategory);
      match answer
      case Added(row) =>
        categories := Appended(categories, row);
        newCategory := "";
      case Failed(error) =>
        alert := Some(AlertText(error));
    }

    /** `removeCategory`, given whether the user confirmed and whether the server
        deleted the category. Without confirmation nothing is sent and nothing changes;
        otherwise the id is sent, and on success every category with that id leaves the
        list, the others keeping their order; a failure keeps the list. */
    method RemoveCategory(id: int, confirmed: bool, deleted: bool) returns (request: Option<int>)
      modifies this`categories
      ensures request == (if confirmed then Some(id) else None)
      ensures categories == (if confirmed && deleted then WithoutCategory(old(categories), id)
                             else old(categories))
    {
      if !confirmed {
        request := None;
        return;
      }
      request := Some(id);
      if deleted {
        categories := WithoutCategory(categories, id);
      }
    }
  }
}
