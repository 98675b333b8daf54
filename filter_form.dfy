/** The descriptor the filter form of Filters.tsx hands to `addFilter` on submit. */
module FilterForm {
  import opened Wrappers
  import opened Records
  import opened Text
  import opened Filters

  /** The two predicate kinds the form's select offers. */
  datatype Kind = IncludesKind | MatchesKind

  /** The fields the form's select offers, with their display names. */
  const FieldNames: map<string, string> := map["title" := "Title", "author.name" := "Author"]

  /** The submitted form: nothing when the text is blank or no field is chosen, otherwise
      a descriptor whose chosen kind carries the text as typed. The id is supplied by the
      caller (the form draws a random UUID). */
  function FromForm(id: string, field: string, kind: Kind, text: string): Option<Filter> {
    if Trim(text) == "" || field == "" then None
    else
      Some(Filter(
        id,
        if field in FieldNames then FieldNames[field] else "Unknown",
        field,
        if kind == IncludesKind then Some(text) else None,
        if kind == MatchesKind then Some(text) else None,
        None))
  }

  /** A submitted descriptor is never the reject-everything kind: it decides by the kind
      the user chose, with the text the user typed. */
  lemma FromFormDecidesByKind(id: string, field: string, kind: Kind, text: string, mr: Value)
    ensures FromForm(id, field, kind, text).None? <==> Trim(text) == "" || field == ""
    ensures FromForm(id, field, kind, text).Some? ==>
      var f := FromForm(id, field, kind, text).value;
      && f.id == id && f.field == field
      && (kind == IncludesKind ==>
            (Passes(f, mr) <==> FieldOf(f, mr).Str? && Includes(FieldOf(f, mr).s, text)))
      && (kind == MatchesKind ==>
            (Passes(f, mr) <==> FieldOf(f, mr).Str? && Trim(FieldOf(f, mr).s) == Trim(text)))
      && (Evaluate(f, mr).Err? <==> !FieldOf(f, mr).Str?)
  {
    if FromForm(id, field, kind, text).Some? {
      assert Trim([]) == [];
      assert text != [];
      var f := FromForm(id, field, kind, text).value;
      if kind == IncludesKind {
        assert IsSet(f.includes) && f.includes.value == text;
      } else {
        assert !IsSet(f.includes) && IsSet(f.matches) && f.matches.value == text;
      }
    }
  }
}
