/**
 * The search filter both user-list endpoints pass to MongoDB: `{}` without a search term, and
 * otherwise `{"$or": [{"name": {"$regex": term}}, {"email": {"$regex": term}}]}` with the term
 * compiled case-insensitively.
 */
module UserSearch {
  import opened Wrappers

  /** `{field: {$regex: pattern}}`, the pattern compiled case-insensitively. */
  datatype Condition = Regex(field: string, pattern: string)

  /** A find filter: `{}` selects every document, `{$or: [...]}` those meeting any condition. */
  datatype Filter = All | AnyOf(conditions: seq<Condition>)

  /** A stored user as far as the filter looks at it. */
  datatype UserDoc = UserDoc(name: string, email: string)

  /** Truthiness of the optional search term: absent and "" are both falsy. */
  predicate Searching(search: Option<string>) {
    search.Some? && search.value != ""
  }

  /**
   * Whether compiling the search term fails: `patternError` is the error the regular-expression
   * compiler raises for the term, if any, and without a term nothing is compiled.
   */
  predicate PatternRejected(search: Option<string>, patternError: Option<string>) {
    Searching(search) && patternError.Some?
  }

  /** The filter the endpoints build from the optional search term. */
  function SearchFilter(search: Option<string>): (f: Filter)
    ensures f.All? <==> !Searching(search)
    ensures f.AnyOf? ==> |f.conditions| == 2 && forall c :: c in f.conditions ==> c.pattern == search.value
  {
    if Searching(search) then AnyOf([Regex("name", search.value), Regex("email", search.value)]) else All
  }

  /** The field of a stored user a condition looks at; other fields are absent and match nothing. */
  function FieldOf(doc: UserDoc, field: string): Option<string> {
    if field == "name" then Some(doc.name) else if field == "email" then Some(doc.email) else None
  }

  /**
   * Whether the store selects a document, given the regular-expression engine as `matches`
   * (pattern, text), which runs inside the database.
   */
  predicate Selects(f: Filter, doc: UserDoc, matches: (string, string) -> bool) {
    match f
    case All => true
    case AnyOf(cs) => exists c :: c in cs && FieldOf(doc, c.field).Some? && matches(c.pattern, FieldOf(doc, c.field).value)
  }

  /**
   * Without a search term every user is listed; with one, exactly those whose name or email
   * matches the term.
   */
  lemma SearchSelects(search: Option<string>, doc: UserDoc, matches: (string, string) -> bool)
    ensures !Searching(search) ==> Selects(SearchFilter(search), doc, matches)
    ensures Searching(search) ==>
      (Selects(SearchFilter(search), doc, matches) <==> matches(search.value, doc.name) || matches(search.value, doc.email))
  {
    if Searching(search) {
      var cs := SearchFilter(search).conditions;
      assert cs[0] in cs && cs[1] in cs;
    }
  }
}
