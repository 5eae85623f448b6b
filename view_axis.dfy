/** src/models/view-axis.ts: the subset on a row or column axis of a native view, and a
    title axis with its selected element. A named subset is referred to by a bind; an
    unnamed one is written out inline. */
module ViewAxes {
  import opened Wrappers
  import opened JsValue
  import Bindings
  import Subsets

  datatype ViewAxisSelection = ViewAxisSelection(subset: Subsets.Subset)

  datatype ViewAxisTitle = ViewAxisTitle(subset: Subsets.Subset, selected: string)

  /** The value of the `Subset` key of an axis body. */
  function SubsetPart(s: Subsets.Subset): (r: Result<Js>)
    ensures s.name != "" ==> r == Ok(Obj([("Subset@odata.bind", Str(Bindings.SubsetPath(s.dimensionName, s.hierarchyName, s.name)))]))
    ensures s.name == "" ==> r == Subsets.Body(s)
  {
    if s.name != "" then Ok(Obj([("Subset@odata.bind", Str(Bindings.SubsetPath(s.dimensionName, s.hierarchyName, s.name)))]))
    else Subsets.Body(s)
  }

  /** `selection.body`: `{Subset: …}`. */
  function SelectionBody(a: ViewAxisSelection): (r: Result<Js>)
    ensures r.Ok? <==> SubsetPart(a.subset).Ok?
    ensures r.Ok? ==> r.value == Obj([("Subset", SubsetPart(a.subset).value)])
  {
    var part :- SubsetPart(a.subset);
    Ok(Obj([("Subset", part)]))
  }

  /** The bind of the element a title selects. */
  function SelectedBind(t: ViewAxisTitle): string {
    Bindings.ElementPath(t.subset.dimensionName, t.subset.hierarchyName, t.selected)
  }

  /** `title.body`: `{Subset: …, 'Selected@odata.bind': …}`. */
  function TitleBody(t: ViewAxisTitle): (r: Result<Js>)
    ensures r.Ok? <==> SubsetPart(t.subset).Ok?
    ensures r.Ok? ==> KeysOf(r.value) == ["Subset", "Selected@odata.bind"]
    ensures r.Ok? ==> r.value.fields[0].1 == SubsetPart(t.subset).value
    ensures r.Ok? ==> r.value.fields[1].1 == Str(SelectedBind(t))
  {
    var part :- SubsetPart(t.subset);
    Ok(Obj([("Subset", part), ("Selected@odata.bind", Str(SelectedBind(t)))]))
  }

  /** `ViewAxisSelection.fromJson(data)`. */
  function SelectionFromJson(data: Js): (r: Result<ViewAxisSelection>)
    ensures data.Undefined? || data.Null? ==> r == Err(TypeError)
    ensures !data.Undefined? && !data.Null? ==>
              r == (match Subsets.FromJson(Field(data, "Subset"))
                    case Ok(s) => Ok(ViewAxisSelection(s))
                    case Err(e) => Err(e))
  {
    if data.Undefined? || data.Null? then Err(TypeError)
    else
      var s :- Subsets.FromJson(Field(data, "Subset"));
      Ok(ViewAxisSelection(s))
  }

  /** `data.Selected.Name ?? ''`. */
  function SelectedName(selected: Js): (r: Result<string>)
    ensures selected.Undefined? || selected.Null? ==> r == Err(TypeError)
    ensures selected.Obj? && (Field(selected, "Name").Undefined? || Field(selected, "Name").Null?) ==> r == Ok("")
    ensures selected.Obj? && Field(selected, "Name").Str? ==> r == Ok(Field(selected, "Name").s)
  {
    if selected.Undefined? || selected.Null? then Err(TypeError)
    else
      var n := Field(selected, "Name");
      if n.Undefined? || n.Null? then Ok("") else AsString(n)
  }

  /** `ViewAxisTitle.fromJson(data)`. */
  function TitleFromJson(data: Js): (r: Result<ViewAxisTitle>)
    ensures data.Undefined? || data.Null? ==> r == Err(TypeError)
    ensures !data.Undefined? && !data.Null? ==>
              (r.Ok? <==> Subsets.FromJson(Field(data, "Subset")).Ok? && SelectedName(Field(data, "Selected")).Ok?)
    ensures r.Ok? ==> Subsets.FromJson(Field(data, "Subset")) == Ok(r.value.subset) &&
                      SelectedName(Field(data, "Selected")) == Ok(r.value.selected)
  {
    if data.Undefined? || data.Null? then Err(TypeError)
    else
      var s :- Subsets.FromJson(Field(data, "Subset"));
      var sel :- SelectedName(Field(data, "Selected"));
      Ok(ViewAxisTitle(s, sel))
  }

  // ---------------------------------------------------------------------------
  // Properties

  /** A named subset is written as a bind that reads back as its dimension, hierarchy and
      name (for quote-free names), whatever else the subset holds. */
  lemma NamedSubsetIsBound(s: Subsets.Subset)
    requires s.name != ""
    requires Bindings.QuoteFree(s.dimensionName) && Bindings.QuoteFree(s.hierarchyName) && Bindings.QuoteFree(s.name)
    ensures SubsetPart(s).Ok? && Field(SubsetPart(s).value, "Subset@odata.bind").Str?
    ensures Bindings.ParsePath(["Dimensions", "Hierarchies", "Subsets"], Field(SubsetPart(s).value, "Subset@odata.bind").s)
              == Some([s.dimensionName, s.hierarchyName, s.name])
  {
    var fs := [("Subset@odata.bind", Str(Bindings.SubsetPath(s.dimensionName, s.hierarchyName, s.name)))];
    FieldsOfLiteral(fs);
    assert Field(Obj(fs), fs[0].0) == fs[0].1;
    Bindings.SubsetPathRoundTrip(s.dimensionName, s.hierarchyName, s.name);
  }

  /** The title's selection bind is always there and names the subset's dimension and
      hierarchy and the selected element, named or unnamed subset alike. */
  lemma TitleSelectsElement(t: ViewAxisTitle)
    requires SubsetPart(t.subset).Ok?
    requires Bindings.QuoteFree(t.subset.dimensionName) && Bindings.QuoteFree(t.subset.hierarchyName)
    requires Bindings.QuoteFree(t.selected)
    ensures TitleBody(t).Ok?
    ensures Bindings.ParsePath(["Dimensions", "Hierarchies", "Elements"], TitleBody(t).value.fields[1].1.s)
              == Some([t.subset.dimensionName, t.subset.hierarchyName, t.selected])
  {
    Bindings.ElementPathRoundTrip(t.subset.dimensionName, t.subset.hierarchyName, t.selected);
  }

  /** A title whose `Selected` has a null or missing `Name` selects '' rather than
      failing; only a missing `Selected` itself throws. */
  lemma NullSelectionIsEmpty(data: Js)
    requires data.Obj? && Subsets.FromJson(Field(data, "Subset")).Ok?
    requires Field(data, "Selected").Obj?
    requires Field(Field(data, "Selected"), "Name").Null? || Field(Field(data, "Selected"), "Name").Undefined?
    ensures TitleFromJson(data).Ok? && TitleFromJson(data).value.selected == ""
  {
    assert SelectedName(Field(data, "Selected")) == Ok("");
  }

  lemma MissingSelectionThrows(data: Js)
    requires data.Obj? && Subsets.FromJson(Field(data, "Subset")).Ok?
    requires Field(data, "Selected").Undefined? || Field(data, "Selected").Null?
    ensures TitleFromJson(data) == Err(TypeError)
  {
    assert SelectedName(Field(data, "Selected")) == Err(TypeError);
  }
}
