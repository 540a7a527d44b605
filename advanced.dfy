/**
 * The form and pagination composables of the Vue front end. `useForm` keeps the field values,
 * the error messages and the set of touched fields, validating a field by running its rules in
 * order until one fails; `usePagination` keeps a page cursor over a list, with a page count by
 * ceiling division and one slice of the list per page.
 */
module Composables {
  import opened Wrappers
  import opened JsValues
  import opened Batching

  /**
   * One validation rule: a function whose result is the error unless it is exactly `true`; an
   * object `{ validator, message }` whose message is the error when the validator's result is
   * falsy; or a value that is neither a function nor an object, which the scan skips.
   */
  datatype Rule =
    | Check(run: Value -> Value)
    | Described(validator: Value -> Value, message: Value)
    | Skipped

  /** Whether the rule rejects the value. */
  predicate Fails(rule: Rule, v: Value) {
    match rule
    case Check(run) => run(v) != Bool(true)
    case Described(validator, _) => !Truthy(validator(v))
    case Skipped => false
  }

  /** What `validateField` returns for a failing rule. */
  function Message(rule: Rule, v: Value): Value {
    match rule
    case Check(run) => run(v)
    case Described(_, message) => message
    case Skipped => Null
  }

  /** The position of the first rule in `rules[from..]` that rejects the value. */
  function FirstFailing(rules: seq<Rule>, v: Value, from: nat): (r: Option<nat>)
    ensures r.Some? ==> from <= r.value < |rules| && Fails(rules[r.value], v)
    ensures r.Some? ==> forall j :: from <= j < r.value ==> !Fails(rules[j], v)
    ensures r.None? ==> forall j :: from <= j < |rules| ==> !Fails(rules[j], v)
    decreases |rules| - from
  {
    if from >= |rules| then None
    else if Fails(rules[from], v) then Some(from)
    else FirstFailing(rules, v, from + 1)
  }

  /**
   * `validateField`: null for a field without rules; otherwise the message of the first rule
   * that rejects the value, or null when every rule accepts it.
   */
  function ValidateField(validationRules: map<string, seq<Rule>>, field: string, value: Value): (r: Value)
    ensures field !in validationRules ==> r == Null
    ensures field in validationRules && (forall i :: 0 <= i < |validationRules[field]| ==> !Fails(validationRules[field][i], value))
      ==> r == Null
    ensures field in validationRules ==>
              forall i :: 0 <= i < |validationRules[field]| && Fails(validationRules[field][i], value) &&
                          (forall j :: 0 <= j < i ==> !Fails(validationRules[field][j], value)) ==>
                            r == Message(validationRules[field][i], value)
  {
    if field !in validationRules then Null
    else
      var rules := validationRules[field];
      match FirstFailing(rules, value, 0)
      case Some(i) => Message(rules[i], value)
      case None => Null
  }

  /** `values[field]`: undefined for a field never set. */
  function Lookup(values: map<string, Value>, field: string): Value {
    if field in values then values[field] else Undefined
  }

  /** The error a field has under `values`. */
  function ErrorOf(validationRules: map<string, seq<Rule>>, values: map<string, Value>, field: string): Value {
    ValidateField(validationRules, field, Lookup(values, field))
  }

  /** The errors `validateForm` collects over the fields `fields`, in order: a field is kept when its error is truthy. */
  function ErrorsOver(validationRules: map<string, seq<Rule>>, fields: seq<string>, values: map<string, Value>): map<string, Value>
  {
    if fields == [] then map[]
    else
      var f := fields[|fields| - 1];
      var e := ErrorOf(validationRules, values, f);
      var before := ErrorsOver(validationRules, fields[..|fields| - 1], values);
      if Truthy(e) then before[f := e] else before
  }

  /** A field has an entry exactly when it is among the fields and its error is truthy, and the entry is that error. */
  lemma {:induction false} ErrorsOverSpec(validationRules: map<string, seq<Rule>>, fields: seq<string>, values: map<string, Value>, f: string)
    ensures f in ErrorsOver(validationRules, fields, values) <==> f in fields && Truthy(ErrorOf(validationRules, values, f))
    ensures f in ErrorsOver(validationRules, fields, values) ==> ErrorsOver(validationRules, fields, values)[f] == ErrorOf(validationRules, values, f)
  {
    if fields != [] {
      var init := fields[..|fields| - 1];
      ErrorsOverSpec(validationRules, init, values, f);
      assert fields == init + [fields[|fields| - 1]];
    }
  }

  /** `errors` after `handleChange` has validated `field` and found `error`. */
  function AfterChange(errors: map<string, Value>, field: string, error: Value): map<string, Value> {
    if Truthy(error) then errors[field := error] else errors - {field}
  }

  /** What `resetForm` puts in each existing key: the initial value, or '' when that is falsy or missing. */
  function ResetValues(initialValues: map<string, Value>, keys: set<string>): (r: map<string, Value>)
    ensures r.Keys == keys
  {
    map k | k in keys :: Or(Lookup(initialValues, k), Str(""))
  }

  /**
   * The reset is not a return to the initial values: an initial value that is falsy (0, false,
   * null) comes back as ''.
   */
  lemma ResetClobbersFalsyInitial()
    ensures var initial := map["count" := Num(0)];
      ResetValues(initial, initial.Keys) == map["count" := Str("")] != initial
  {
    var initial := map["count" := Num(0)];
    assert initial.Keys == {"count"};
    assert map["count" := Str("")]["count"] != initial["count"];
  }

  /** The state of one `useForm` call. */
  class Form {
    const initialValues: map<string, Value>
    const validationRules: map<string, seq<Rule>>
    /** `Object.keys(validationRules)`, in order. */
    const ruleFields: seq<string>
    var values: map<string, Value>
    var errors: map<string, Value>
    var touched: set<string>
    var isSubmitting: bool

    ghost predicate Valid()
      reads this
    {
      && (forall f :: f in ruleFields <==> f in validationRules)
      && (forall i, j :: 0 <= i < j < |ruleFields| ==> ruleFields[i] != ruleFields[j])
    }

    /** The errors the current values have: what `validateForm` would store now. */
    function FormErrors(): map<string, Value>
      reads this
    {
      ErrorsOver(validationRules, ruleFields, values)
    }

    /** `isValid`: no error is recorded. */
    function IsValid(): bool
      reads this
    {
      |errors| == 0
    }

    /** `isDirty`: some field has been touched. */
    function IsDirty(): bool
      reads this
    {
      |touched| > 0
    }

    /** `useForm(initialValues, validationRules)`: the values are a copy of the initial ones; nothing is touched or wrong yet. */
    constructor (initialValues: map<string, Value>, validationRules: map<string, seq<Rule>>, ruleFields: seq<string>)
      requires forall f :: f in ruleFields <==> f in validationRules
      requires forall i, j :: 0 <= i < j < |ruleFields| ==> ruleFields[i] != ruleFields[j]
      ensures Valid()
      ensures this.initialValues == initialValues && this.validationRules == validationRules && this.ruleFields == ruleFields
      ensures values == initialValues && errors == map[] && touched == {} && !isSubmitting
    {
      this.initialValues := initialValues;
      this.validationRules := validationRules;
      this.ruleFields := ruleFields;
      values := initialValues;
      errors := map[];
      touched := {};
      isSubmitting := false;
    }

    /**
     * `validateForm`: every field with rules is validated against its current value; `errors`
     * is replaced by the truthy errors found, and the result is true exactly when there are none.
     */
    method ValidateForm() returns (isValid: bool)
      requires Valid()
      modifies this`errors
      ensures errors == FormErrors()
      ensures isValid <==> IsValid()
    {
      var newErrors: map<string, Value> := map[];
      isValid := true;
      var i := 0;
      while i < |ruleFields|
        invariant 0 <= i <= |ruleFields|
        invariant newErrors == ErrorsOver(validationRules, ruleFields[..i], values)
        invariant isValid <==> |newErrors| == 0
      {
        var fieldName := ruleFields[i];
        var error := ValidateField(validationRules, fieldName, Lookup(values, fieldName));
        assert ruleFields[..i + 1][..i] == ruleFields[..i];
        if Truthy(error) {
          newErrors := newErrors[fieldName := error];
          isValid := false;
        }
        i := i + 1;
      }
      assert ruleFields[..i] == ruleFields;
      errors := newErrors;
    }

    /**
     * `handleChange`: the value is set and the field touched; the field's error becomes the
     * new value's error when that is truthy and is removed otherwise; other errors stay.
     */
    method HandleChange(fieldName: string, value: Value)
      modifies this`values, this`touched, this`errors
      ensures values == old(values)[fieldName := value]
      ensures touched == old(touched) + {fieldName}
      ensures errors == AfterChange(old(errors), fieldName, ValidateField(validationRules, fieldName, value))
      ensures fieldName in errors <==> Truthy(ValidateField(validationRules, fieldName, value))
      ensures forall f :: f != fieldName ==> (f in errors <==> f in old(errors)) && (f in errors ==> errors[f] == old(errors)[f])
    {
      values := values[fieldName := value];
      touched := touched + {fieldName};
      var error := ValidateField(validationRules, fieldName, value);
      if Truthy(error) {
        errors := errors[fieldName := error];
      } else {
        errors := errors - {fieldName};
      }
    }

    /** `handleBlur`: the field is marked touched; values and errors are untouched. */
    method HandleBlur(fieldName: string)
      modifies this`touched
      ensures touched == old(touched) + {fieldName}
    {
      touched := touched + {fieldName};
    }

    /**
     * `resetForm`: every key the values have is set back to its initial value, or '' when that
     * is falsy; errors and touched fields are cleared and the form is no longer submitting.
     */
    method ResetForm()
      modifies this`values, this`errors, this`touched, this`isSubmitting
      ensures values == ResetValues(initialValues, old(values).Keys)
      ensures errors == map[] && touched == {} && !isSubmitting
      ensures IsValid() && !IsDirty()
    {
      ghost var original := values;
      var remaining := values.Keys;
      while remaining != {}
        invariant remaining <= original.Keys && values.Keys == original.Keys
        invariant forall k :: k in values ==>
          values[k] == if k in remaining then original[k] else Or(Lookup(initialValues, k), Str(""))
        decreases remaining
      {
        var key :| key in remaining;
        values := values[key := Or(Lookup(initialValues, key), Str(""))];
        remaining := remaining - {key};
      }
      errors := map[];
      touched := {};
      isSubmitting := false;
    }
  }

  /**
   * When the errors reflect the values, as `validateForm` leaves them, `handleChange` on any
   * field keeps them so: its per-field update agrees with validating the whole form again.
   */
  lemma HandleChangeKeepsErrorsInSync(validationRules: map<string, seq<Rule>>, ruleFields: seq<string>,
                                      values: map<string, Value>, field: string, value: Value)
    requires forall f :: f in ruleFields <==> f in validationRules
    ensures AfterChange(ErrorsOver(validationRules, ruleFields, values), field, ValidateField(validationRules, field, value))
      == ErrorsOver(validationRules, ruleFields, values[field := value])
  {
    var before := ErrorsOver(validationRules, ruleFields, values);
    var values' := values[field := value];
    var after := ErrorsOver(validationRules, ruleFields, values');
    var changed := AfterChange(before, field, ValidateField(validationRules, field, value));
    forall f
      ensures f in changed <==> f in after
      ensures f in changed ==> changed[f] == after[f]
    {
      ErrorsOverSpec(validationRules, ruleFields, values, f);
      ErrorsOverSpec(validationRules, ruleFields, values', f);
      if f != field {
        assert Lookup(values', f) == Lookup(values, f);
      } else {
        assert Lookup(values', f) == value;
      }
    }
    assert changed.Keys == after.Keys;
  }

  /** `Array.prototype.slice(start, end)` for 0 <= start <= end: clamped to the list. */
  function Slice<T>(s: seq<T>, start: nat, end: nat): (r: seq<T>)
    requires start <= end
    ensures |r| <= end - start
    ensures start < |s| ==> r == s[start..Min(end, |s|)]
    ensures start >= |s| ==> r == []
  {
    if start >= |s| then [] else s[start..Min(end, |s|)]
  }

  /** `Math.ceil(totalItems / perPage)`. */
  function TotalPagesOf(totalItems: nat, perPage: nat): (r: nat)
    requires perPage > 0
  {
    CeilDiv(totalItems, perPage)
  }

  /** The slice of page `page`: `[(page - 1) * perPage, (page - 1) * perPage + perPage)`. */
  function PageOf<T>(items: seq<T>, page: nat, perPage: nat): (r: seq<T>)
    requires page >= 1
  {
    var start := (page - 1) * perPage;
    Slice(items, start, start + perPage)
  }

  /** Window k of `range(from, n, b)` starts k windows after `from`. */
  lemma {:induction false} RangesFromAt(from: nat, n: nat, b: nat, k: nat)
    requires b > 0 && k < |RangesFrom(from, n, b)|
    ensures RangesFrom(from, n, b)[k] == (from + k * b, Min(from + k * b + b, n))
    decreases n - from
  {
    if k > 0 {
      RangesFromAt(from + b, n, b, k - 1);
      assert from + b + (k - 1) * b == from + k * b;
    }
  }

  /**
   * A page holds at most perPage items; every page from 1 to the page count is the non-empty
   * slice that the matching window of the list's batching covers, and the windows tile the list
   * in order, so the pages do too; a page past the count is empty.
   */
  lemma PagesTileItems<T>(items: seq<T>, perPage: nat, page: nat)
    requires perPage > 0 && page >= 1
    ensures |PageOf(items, page, perPage)| <= perPage
    ensures |BatchRanges(|items|, perPage)| == TotalPagesOf(|items|, perPage)
    ensures page <= TotalPagesOf(|items|, perPage) ==>
      BatchRanges(|items|, perPage)[page - 1].0 < BatchRanges(|items|, perPage)[page - 1].1 <= |items|
    ensures page <= TotalPagesOf(|items|, perPage) ==>
      var w := BatchRanges(|items|, perPage)[page - 1];
      PageOf(items, page, perPage) == items[w.0..w.1] != []
    ensures page > TotalPagesOf(|items|, perPage) ==> PageOf(items, page, perPage) == []
    ensures Tiles(BatchRanges(|items|, perPage), 0, |items|, perPage)
  {
    var n := |items|;
    BatchRangesTile(n, perPage);
    if page <= TotalPagesOf(n, perPage) {
      PageInWindow(items, perPage, page);
    } else {
      PageBeyondCount(n, perPage, page);
    }
  }

  lemma PageInWindow<T>(items: seq<T>, perPage: nat, page: nat)
    requires perPage > 0 && 1 <= page <= TotalPagesOf(|items|, perPage)
    ensures |BatchRanges(|items|, perPage)| == TotalPagesOf(|items|, perPage)
    ensures BatchRanges(|items|, perPage)[page - 1].0 < BatchRanges(|items|, perPage)[page - 1].1 <= |items|
    ensures var w := BatchRanges(|items|, perPage)[page - 1];
      PageOf(items, page, perPage) == items[w.0..w.1] != []
  {
    var n := |items|;
    BatchRangesTile(n, perPage);
    CeilDivIsCeiling(n, perPage);
    RangesFromAt(0, n, perPage, page - 1);
    MulMonotone(page - 1, TotalPagesOf(n, perPage) - 1, perPage);
  }

  lemma PageBeyondCount(n: nat, perPage: nat, page: nat)
    requires perPage > 0 && page > TotalPagesOf(n, perPage)
    ensures (page - 1) * perPage >= n
  {
    CeilDivIsCeiling(n, perPage);
    MulMonotone(TotalPagesOf(n, perPage), page - 1, perPage);
  }

  /** The page count is the least number of pages that hold every item. */
  lemma TotalPagesIsCeiling(totalItems: nat, perPage: nat)
    requires perPage > 0
    ensures TotalPagesOf(totalItems, perPage) * perPage >= totalItems
    ensures TotalPagesOf(totalItems, perPage) == 0 || (TotalPagesOf(totalItems, perPage) - 1) * perPage < totalItems
  {
    CeilDivIsCeiling(totalItems, perPage);
  }

  /** The state of one `usePagination` call over a list that may be null or undefined (`None`). */
  class Pagination<T> {
    var items: Option<seq<T>>
    var currentPage: int
    var perPage: nat

    ghost predicate Valid()
      reads this
    {
      currentPage >= 1 && perPage > 0
    }

    /** `totalItems`: the list's length, or 0 for a missing list. */
    function TotalItems(): nat
      reads this
    {
      match items
      case Some(s) => |s|
      case None => 0
    }

    /** `totalPages`. */
    function TotalPages(): nat
      reads this
      requires perPage > 0
    {
      TotalPagesOf(TotalItems(), perPage)
    }

    /** `paginatedItems`: the current page's slice, or [] for a missing list. */
    function PaginatedItems(): seq<T>
      reads this
      requires Valid()
    {
      match items
      case Some(s) => PageOf(s, currentPage, perPage)
      case None => []
    }

    function HasNextPage(): bool
      reads this
      requires perPage > 0
    {
      currentPage < TotalPages()
    }

    function HasPrevPage(): bool
      reads this
    {
      currentPage > 1
    }

    /** `usePagination(items, itemsPerPage)`: the cursor starts on page 1. */
    constructor (items: Option<seq<T>>, itemsPerPage: nat)
      requires itemsPerPage > 0
      ensures Valid() && this.items == items && currentPage == 1 && perPage == itemsPerPage
    {
      this.items := items;
      currentPage := 1;
      perPage := itemsPerPage;
    }

    /** The owner assigns `perPage.value`; the cursor is left where it was. */
    method SetPerPage(size: nat)
      requires size > 0
      modifies this`perPage
      ensures perPage == size
    {
      perPage := size;
    }

    /** The owner replaces the list the composable watches; the cursor is left where it was. */
    method SetItems(newItems: Option<seq<T>>)
      modifies this`items
      ensures items == newItems
    {
      items := newItems;
    }

    /** `goToPage`: the cursor moves to `page` only when 1 <= page <= totalPages. */
    method GoToPage(page: int)
      requires Valid()
      modifies this`currentPage
      ensures Valid()
      ensures currentPage == if 1 <= page <= TotalPages() then page else old(currentPage)
    {
      if page >= 1 && page <= TotalPages() {
        currentPage := page;
      }
    }

    /** `nextPage`: goToPage(currentPage + 1); it moves exactly when `hasNextPage` held. */
    method NextPage()
      requires Valid()
      modifies this`currentPage
      ensures Valid()
      ensures currentPage == if old(HasNextPage()) then old(currentPage) + 1 else old(currentPage)
    {
      GoToPage(currentPage + 1);
    }

    /**
     * `prevPage`: goToPage(currentPage - 1). It moves exactly when `hasPrevPage` held and the
     * page before is still within the page count (the list may have shrunk under the cursor).
     */
    method PrevPage()
      requires Valid()
      modifies this`currentPage
      ensures Valid()
      ensures currentPage == if old(HasPrevPage()) && old(currentPage) - 1 <= TotalPages() then old(currentPage) - 1 else old(currentPage)
    {
      GoToPage(currentPage - 1);
    }
  }
}
