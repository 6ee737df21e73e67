/** The command line program: the store's letter from its template, its
    store mapping entry and its metrics. */
module Letter {
  import opened Wrappers
  import opened Values
  import opened Templates
  import opened Placeholders
  import opened Documents

  /** `f"Letter_{store}.docx"`. */
  function OutputName(store: string): (name: string)
    ensures |name| == |store| + 12
    ensures name[..7] == "Letter_" && name[|name| - 5..] == ".docx"
    ensures name[7..|name| - 5] == store
  {
    "Letter_" + store + ".docx"
  }

  /** Two stores never write to the same file name. */
  lemma OutputNameInjective(a: string, b: string)
    requires OutputName(a) == OutputName(b)
    ensures a == b
  {
    assert a == OutputName(a)[7..|OutputName(a)| - 5];
  }

  datatype Sheet = SheetNamed(name: string) | FirstSheet

  datatype PayloadSource = FromJson(path: string) | FromExcel(path: string, sheet: Sheet) | NoSource

  /** A path argument is used when it is given, non-empty, and names an
      existing file. */
  predicate Usable(arg: Option<string>, existing: set<string>)
  {
    arg.Some? && arg.value != "" && arg.value in existing
  }

  /** Where the metrics come from: `--data` if usable, else `--excel` if
      usable (with `--sheet`, or the first sheet), else nowhere. */
  function PayloadSourceFor(data: Option<string>, excel: Option<string>, sheet: Option<string>,
                            existing: set<string>): (src: PayloadSource)
    ensures src.FromJson? <==> Usable(data, existing)
    ensures src.FromExcel? <==> !Usable(data, existing) && Usable(excel, existing)
    ensures src.NoSource? <==> !Usable(data, existing) && !Usable(excel, existing)
    ensures src.FromJson? ==> src.path == data.value
    ensures src.FromExcel? ==> src.path == excel.value
    ensures src.FromExcel? ==> (src.sheet.FirstSheet? <==> sheet.None? || sheet.value == "")
    ensures src.FromExcel? && src.sheet.SheetNamed? ==> sheet == Some(src.sheet.name)
  {
    if data.Some? && data.value != "" && data.value in existing then FromJson(data.value)
    else if excel.Some? && excel.value != "" && excel.value in existing then
      FromExcel(excel.value, if sheet.Some? && sheet.value != "" then SheetNamed(sheet.value) else FirstSheet)
    else NoSource
  }

  datatype GeneratedLetter = GeneratedLetter(fileName: string, text: DocText)

  /** The steps of `main` after the arguments are read and the payload is
      loaded: select the template, build the placeholders, open the template,
      replace, and name the output file. */
  method GenerateLetter(store: string, storeMap: StoreMap, templates: map<string, DocText>,
                        payload: Payload, month: string, year: int)
    returns (r: Result<GeneratedLetter, SelectError>)
    ensures SelectTemplate(store, storeMap, templates.Keys).Err? ==>
      r == Err(SelectTemplate(store, storeMap, templates.Keys).error)
    ensures SelectTemplate(store, storeMap, templates.Keys).Ok? ==>
      var sel := SelectTemplate(store, storeMap, templates.Keys).value;
      r == Ok(GeneratedLetter(OutputName(store),
                     Render(templates[sel.template], BuildPlaceholderMap(store, sel.storeName, payload, month, year))))
  {
    var selected := SelectTemplate(store, storeMap, templates.Keys);
    if selected.Err? {
      return Err(selected.error);
    }
    var sel := selected.value;
    var placeholders := BuildPlaceholderMap(store, sel.storeName, payload, month, year);
    var doc := new Document(templates[sel.template]);
    doc.ReplaceAll(placeholders);
    r := Ok(GeneratedLetter(OutputName(store), doc.Text()));
  }
}
