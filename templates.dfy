/** `select_template`: which Word template a store's letter is filled from,
    and under which store name. */
module Templates {
  import opened Wrappers

  /** One entry of store_mapping.json: field name to text. */
  type Entry = map<string, string>

  /** store_mapping.json: store code (or "_default") to entry. */
  type StoreMap = map<string, Entry>

  const DefaultKey := "_default"
  const DefaultTemplate := "default.docx"

  datatype Selection = Selection(template: string, storeName: string)

  datatype SelectError = TemplateNotFound(template: string)

  /** `info.get(field, default)`. */
  function Field(info: Entry, field: string, default: string): string
  {
    if field in info then info[field] else default
  }

  /** The store's own entry, else the "_default" entry, else an empty one;
      then the template name (default "default.docx") and the store name
      (default the store code). It fails when the templates directory has no
      file of that name. */
  function SelectTemplate(code: string, storeMap: StoreMap, files: set<string>): (r: Result<Selection, SelectError>)
    ensures r.Ok? ==> r.value.template in files
    ensures r.Err? ==> r.error.template !in files
  {
    var info := if code in storeMap then storeMap[code]
                else if DefaultKey in storeMap then storeMap[DefaultKey]
                else map[];
    var templateName := Field(info, "template", DefaultTemplate);
    var storeName := Field(info, "store_name", code);
    if templateName in files then Ok(Selection(templateName, storeName))
    else Err(TemplateNotFound(templateName))
  }

  /** A store with its own entry gets that entry's fields, each defaulted on
      its own: nothing is taken from "_default". */
  lemma SelectOwnEntry(code: string, storeMap: StoreMap, files: set<string>)
    requires code in storeMap
    ensures var info := storeMap[code];
      var name := if "template" in info then info["template"] else DefaultTemplate;
      SelectTemplate(code, storeMap, files)
        == if name in files then Ok(Selection(name, if "store_name" in info then info["store_name"] else code))
           else Err(TemplateNotFound(name))
  {
  }

  /** Entries other than the store's own do not matter when it has one, even
      when its own entry names no template. */
  lemma SelectIgnoresOtherEntries(code: string, storeMap: StoreMap, files: set<string>, key: string, other: Entry)
    requires code in storeMap && key != code
    ensures SelectTemplate(code, storeMap[key := other], files) == SelectTemplate(code, storeMap, files)
  {
  }

  /** A store without an entry takes the "_default" entry's fields, again each
      defaulted on its own. */
  lemma SelectDefaultEntry(code: string, storeMap: StoreMap, files: set<string>)
    requires code !in storeMap && DefaultKey in storeMap
    ensures var info := storeMap[DefaultKey];
      var name := if "template" in info then info["template"] else DefaultTemplate;
      SelectTemplate(code, storeMap, files)
        == if name in files then Ok(Selection(name, if "store_name" in info then info["store_name"] else code))
           else Err(TemplateNotFound(name))
  {
  }

  /** With neither entry, the letter uses "default.docx" and the store code. */
  lemma SelectWithoutEntries(code: string, storeMap: StoreMap, files: set<string>)
    requires code !in storeMap && DefaultKey !in storeMap
    ensures SelectTemplate(code, storeMap, files)
      == if DefaultTemplate in files then Ok(Selection(DefaultTemplate, code))
         else Err(TemplateNotFound(DefaultTemplate))
  {
  }

  /** Adding template files never turns a selection into a failure or changes it. */
  lemma SelectMonotoneInFiles(code: string, storeMap: StoreMap, files: set<string>, more: set<string>)
    requires files <= more && SelectTemplate(code, storeMap, files).Ok?
    ensures SelectTemplate(code, storeMap, more) == SelectTemplate(code, storeMap, files)
  {
  }

  /** The outcome turns only on whether the chosen name is a file: adding or
      removing any other file changes nothing. */
  lemma SelectDependsOnChosenFileOnly(code: string, storeMap: StoreMap, files: set<string>, f: string)
    requires (SelectTemplate(code, storeMap, files).Ok? && f != SelectTemplate(code, storeMap, files).value.template)
          || (SelectTemplate(code, storeMap, files).Err? && f != SelectTemplate(code, storeMap, files).error.template)
    ensures SelectTemplate(code, storeMap, files + {f}) == SelectTemplate(code, storeMap, files)
    ensures SelectTemplate(code, storeMap, files - {f}) == SelectTemplate(code, storeMap, files)
  {
  }
}
