# Letter generator: a Dafny model

`app.py` is a command-line program. It writes one Word letter for one store. Its steps are:

- look the store up in `store_mapping.json` to pick a template file and a store name (`select_template`);
- load the store's metrics from a JSON file or an Excel sheet;
- build the twelve placeholder values of the letter (`build_placeholder_map`), one of them a percentage formatted by `format_percent`;
- open the template, replace every `[[name]]` token in its top-level paragraphs and in its table cells (`replace_all`);
- save the result as `Letter_<store>.docx`.

The model covers each of these steps, one Dafny module per concept:

- `Values`: the Python values that reach a letter (`Value`). It also covers the two conversions applied to them: `str(v)` (`ToStr`) and `float(x)` (`ToFloat`, with a decimal parser `ParseDecimal`).
- `Percent`: `format_percent`, with `.0f` rounding as round-half-even.
- `Dicts`: a Python dict with string keys, kept as its items in insertion order. `Lookup` is `d.get(k)` and `Put` is `d[k] = v`.
- `Substitution`: `str.replace` (`Replace`, a leftmost non-overlapping scan) and `repl_text`. `repl_text` is specified as the left fold `ReplaceEach` over the mapping's items and implemented by the loop `ReplaceInText`.
- `Documents`: a document's text as paragraphs plus tables of rows of cells (`DocText`), and `Render`, its rewrite by a mapping. The class `Document` holds the fields that `replace_all` rewrites in place. `Document.ReplaceAll` has the source's loops and is proved to produce `Render`.
- `Templates`: `select_template`. The template directory is given as the set of file names it holds.
- `Placeholders`: `build_placeholder_map`.
- `Letter`: how `main` picks the payload source, and the output name. `GenerateLetter` chains selection, placeholder building, substitution and naming.

Behaviour worth noting:

- An unknown token such as `[[foo]]` is left in the letter, not blanked (`UnknownTokenStays`).
- A `None` value is written as the text `None` (`ToStr`).
- The percent rule multiplies every value below 10 by 100, negative values included (`Scale`). It does not use the absolute value.
- A text ending in `%` passes through only because `float()` rejects it. Nothing is trimmed, and a `,` decimal separator is not accepted.
- The code assigns `p.text` and `cell.text`, so a token split across formatting runs is still found. The runs themselves are not modelled.
- Headers, footers and tables nested inside cells are not visited.

## Model

| member | source | states |
|---|---|---|
| Values.NatToStringValue | app.py:42 | The decimal digits printed for a natural number read back as that number. |
| Values.ParseIntToString | app.py:42 | `float()` of the printed form of any integer, the sign included, gives that integer back. |
| Values.ToFloat | app.py:38 | `float(x)`: a string through `ParseDecimal`; an int exactly when its magnitude is below 2^1024 - 2^970, beyond which Python raises OverflowError; a bool as 1.0 or 0.0; `None` and other objects fail. Characterised by `ParseIntToString`, `ParseWithoutDigits`, `ParsePercentSuffix`, `ParseDecimalExample` and `FormatPercentOfHugeInt`. |
| Values.ToStr | app.py:52 | `str(x)`: an int as its decimal digits, a bool as `True`/`False`, `None` as `None`, a float as the text it carries. `ParseIntToString` shows the modelled `float()` reads an int's text back. |
| Values.ParseWithoutDigits | app.py:37-40 | The modelled `float()` fails on every text that holds no digit, the empty text included. Python's own `float()` also accepts `nan`, `inf` and `infinity`, which this parser does not (see Left out). |
| Values.ParsePercentSuffix | app.py:37-40 | `float()` fails on every text that ends in `%`. |
| Values.ParseDecimalExample | app.py:38 | `float("0.85")` is 0.85. |
| Percent.RoundHalfEven | app.py:42-45 | The rounded integer is within one half of the value. On a tie it is the even neighbour. |
| Percent.Scale | app.py:41-45 | The one scaling rule: below 10, negatives included, ×100; 10 and above unchanged. `FormatPercent`'s second ensures shows both sub-10 branches compute it. |
| Percent.PercentText | app.py:42-45 | `f"{r:.0f}%"`: the round-half-even integer, `-` first when a negative value rounds to zero, then `%`. Characterised by `PercentTextReadsBack`. |
| Percent.PercentTextReadsBack | app.py:42-45 | Every percentage text is a number followed by `%`, and the number reads back as the rounded value. |
| Percent.FormatPercent | app.py:29-45 | A value `float()` rejects comes back as `str(x)`. Otherwise the result is the `.0f` percentage of the value scaled by one rule: below 10 take ×100, else keep it. The source's two sub-10 branches are shown to be that one rule. |
| Percent.FormatPercentReadsBack | app.py:41-45 | A numeric result is digits followed by `%`. The digits parse back to the scaled value, rounded to within one half. |
| Percent.FormatPercentKeepsPercentText | app.py:37-40 | Any text already ending in `%` is returned unchanged. |
| Percent.FormatPercentKeepsNonNumericText | app.py:37-40 | Any text without a digit (`""`, `"n/a"`) is rejected by the modelled `float()` and returned unchanged. The texts `nan` and `inf`, which Python reads as numbers, are the exception (see Left out). |
| Percent.FormatPercentExamples | app.py:8 | The documented examples: 0.85 gives `85%`, 1.22 gives `122%`, 122 gives `122%`, `"87%"` stays, `""` stays. |
| Percent.FormatPercentOfText | app.py:37-42 | The text `"0.85"` is formatted like the number 0.85: `85%`. |
| Percent.FormatPercentOfParsed | app.py:37-45 | A text `float()` reads as a number is formatted as that number. |
| Percent.FormatPercentNegativeZero | app.py:41-42 | A small negative ratio such as -0.004 prints as `-0%`, keeping the sign as `.0f` does. |
| Percent.FormatPercentOfHugeInt | app.py:37-40 | An int whose magnitude is at least 2^1024 - 2^970 makes `float()` raise, so it is returned as its digits without `%`. |
| Percent.FormatPercentIsLossy | app.py:41-45 | 5 and 500 both become `500%`: the rule cannot tell a ratio from a percentage. |
| Dicts.Keys | app.py:89-104 | A dict's key list has one key per item, in item order. |
| Dicts.Lookup | app.py:89-104 | `d.get(k)` is absent exactly when k is not a key. When present, it is the value of an item with key k. |
| Dicts.Put | app.py:104 | `d[k] = v` keeps the key order when k is present, and appends k when it is new. |
| Dicts.PutLookup | app.py:104 | After `d[k] = v`, k maps to v and every other key keeps its value. |
| Dicts.PutDistinct | app.py:104 | `d[k] = v` never duplicates a key. |
| Dicts.PutNew | app.py:104 | Assigning a new key appends the item at the end. |
| Dicts.LookupAt | app.py:89-104 | With distinct keys, looking up an item's key finds that item's value. |
| Substitution.Replace | app.py:52 | `s.replace(pat, rep)` as a scan from the left. Characterised by `ReplaceAbsent`, `ReplaceLeftmost`, `ReplaceSplit`, `ReplaceKeepsOtherToken` and `ReplaceHitsToken`. |
| Substitution.ReplaceEach | app.py:49-53 | What `repl_text` computes: the left fold over the items in mapping order. `ReplaceInText` is the loop proved equal to it; `ReplaceEachAppend`, `ReplaceEachEmpty`, `ReplaceEachAbsent`, `ReplaceEachKeepsUnknownToken` and `ReplaceEachIsSequential` characterise it. |
| Substitution.ReplaceAbsent | app.py:52 | `str.replace` with a pattern that does not occur returns the text unchanged. |
| Substitution.ReplaceLeftmost | app.py:52 | `str.replace` works from the leftmost occurrence. It copies what precedes it, writes the replacement, then carries on after the occurrence. |
| Substitution.ReplaceSplit | app.py:52 | When no occurrence straddles a split point, `str.replace` acts on the two sides separately. |
| Substitution.TokensDoNotOverlap | app.py:52 | Two tokens of bracket-free names that overlap in a text are the same token at the same place. |
| Substitution.ReplaceKeepsOtherToken | app.py:52 | Replacing `[[k]]` leaves a `[[j]]` of another name intact and rewrites the text on either side separately. |
| Substitution.ReplaceHitsToken | app.py:52 | Replacing `[[k]]` turns that token into the value and rewrites the text on either side separately. |
| Substitution.ReplaceEachAppend | app.py:51-52 | Applying the items of two mappings in one pass equals applying the first mapping, then the second. |
| Substitution.ReplaceEachEmpty | app.py:49-53 | With an empty mapping `repl_text` returns its text unchanged. |
| Substitution.ReplaceEachAbsent | app.py:49-53 | A text that holds no key's token is returned unchanged. |
| Substitution.ReplaceEachKeepsUnknownToken | app.py:49-53 | With bracket-free keys, a token whose name is not a key survives every step in place. |
| Substitution.ReplaceEachIsSequential | app.py:51-52 | Items are applied in order. A value holding a later key's token is expanded again; one holding an earlier key's token is not. |
| Substitution.ReplaceInText | app.py:49-53 | The `repl_text` loop returns the left fold of the items over the text. |
| Documents.Render | app.py:55-61 | The document `replace_all` leaves behind. `Document.ReplaceAll` is proved to produce it; `RenderKeepsShape`, `RenderWithoutTokens` and `RenderTwice` characterise it. |
| Documents.RenderKeepsShape | app.py:55-61 | Rendering keeps the number of paragraphs, tables, rows and cells. Each paragraph and each cell becomes `repl_text` of its old text. |
| Documents.RenderWithoutTokens | app.py:55-61 | A document that mentions no key comes back unchanged. |
| Documents.RenderTwice | app.py:55-61 | Rendering with one mapping and then another equals rendering once with the items of both. |
| Documents.Document.constructor | app.py:134 | An opened document holds the template's text. |
| Documents.Document.ReplaceInRow | app.py:60-61 | The loop over one row's cells rewrites exactly those cells. Every other paragraph, table, row and cell stays as it was. |
| Documents.Document.ReplaceInTable | app.py:59-61 | The loop over one table's rows rewrites exactly that table. |
| Documents.Document.ReplaceAll | app.py:47-61 | `replace_all` leaves the document's text equal to `Render` of its old text. |
| Templates.SelectTemplate | app.py:69-76 | A selection names a template that exists. A failure names the missing template. |
| Templates.SelectOwnEntry | app.py:70-72 | A store with its own entry takes that entry's template and store name. Each field defaults on its own, and nothing comes from `_default`. |
| Templates.SelectIgnoresOtherEntries | app.py:70 | When a store has its own entry, changing any other entry changes nothing. |
| Templates.SelectDefaultEntry | app.py:70-72 | A store without an entry takes the `_default` entry's fields, each defaulted on its own. |
| Templates.SelectWithoutEntries | app.py:70-72 | With neither entry, the letter uses `default.docx` and the store code as the name. |
| Templates.SelectMonotoneInFiles | app.py:73-76 | Adding template files never changes a successful selection. |
| Templates.SelectDependsOnChosenFileOnly | app.py:73-76 | Adding or removing any file other than the chosen template changes nothing. |
| Placeholders.BuildPlaceholderMap | app.py:86-105 | There are exactly the twelve keys, distinct and in order. The store code, store name, month and year are the given ones. The seven payload fields are copied with `""` as the default. `voice_vs_target_pct` is `format_percent` of the payload's `voice_vs_target`. Any other name is absent. |
| Placeholders.PlaceholderMapShape | app.py:89-104 | The percent key is new to the literal, so the dict is the eleven literal items followed by that key. |
| Placeholders.PlaceholderKeysDistinct | app.py:89-104 | The twelve placeholder names are pairwise distinct. |
| Placeholders.PlaceholderKeysAreNames | app.py:89-104 | No placeholder name contains a square bracket. |
| Placeholders.PercentPlaceholderWhenAbsent | app.py:104 | A payload without `voice_vs_target` gives an empty `voice_vs_target_pct`. |
| Placeholders.UnknownTokenStays | app.py:49-53 | In a letter, a token whose name is not one of the twelve placeholders is kept in place. Only the text around it is rewritten. |
| Letter.OutputName | app.py:133 | The output name starts with `Letter_`, ends with `.docx`, and holds exactly the store code between them. |
| Letter.OutputNameInjective | app.py:133 | Two different stores never write to the same file name. |
| Letter.PayloadSourceFor | app.py:120-127 | A non-empty, existing `--data` path wins. Otherwise a non-empty, existing `--excel` path is used, with the `--sheet` name or the first sheet. Otherwise there is no source. Each case holds exactly when its condition does. |
| Letter.GenerateLetter | app.py:116-135 | A failed template selection is the result. Otherwise the letter is named from the store code and its text is the chosen template rendered with the store's placeholder map. |

## Left out

- File and directory I/O is left out: reading and saving `.docx`, `os.makedirs`, `os.path.exists` and `os.path.join`. Templates are given as a map from file name to document text, and the files that exist as a set of names. A template name is not resolved as a path.
- `load_store_mapping` and the JSON decoding of the mapping file and the data file are left out. The mapping is given as a map of string fields, so non-string values in `store_mapping.json` are not modelled.
- `read_metrics_from_excel` and pandas are left out. The payload is given as a map of values.
- The clock and the locale are left out: the month name and the year are parameters.
- `argparse`, `print` and the process exit are left out. `PayloadSourceFor` models only the choice of source.
- python-docx internals are left out: formatting runs, styles, headers and footers, nested tables, and merged cells that python-docx returns more than once.
- Values.ToFloat: `float()` of a string is modelled for an optionally signed decimal. Surrounding whitespace, exponents, `inf`, `infinity`, `nan` and `_` digit separators are not accepted, though Python accepts them; `format_percent` would then give `nan%` or `inf%`. A digit string beyond the range of a double, which Python reads as `inf`, is read as an exact number. Other objects that define `__float__` are treated as failing.
- Percent.FormatPercent: NaN and infinite floats are not values of the model, so the `nan%`, `inf%` and `-inf%` results (NaN is what pandas gives for a blank Excel cell) are not modelled. Signed zero is not modelled either: `-0`, `-0.0` and the float `-0.0` print `0%` here where Python prints `-0%`; a negative value that rounds to zero does keep its sign. Arithmetic is exact on reals, so binary floating-point error is not modelled. Where `val*100` lands just beside a half in binary, Python rounds by that binary value. The model rounds the exact product, ties to even.
- Values.ToStr: the text of a float is carried with the value (`Float(f, shown)`), not computed from the number.
