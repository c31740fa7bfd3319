# SEB exchange-rate fetchers, modelled in Dafny

The repository holds two short scripts. Each fetches exchange rates from the bank,
transforms them and writes one CSV file:

- `scripts/scripts/fetch_seb_avista.py` scrapes the retail ("avista") rate table.
  - It keeps the rows for Euro, Storbritannien and USA.
  - It reads their buying and selling rates from Swedish number text: no-break spaces
    between digit groups and a decimal comma.
  - It writes the dated snapshot `SEB_Avista_<YYYYMMDD>.csv`.
- `scripts/fetch_seb_fx.py` reads the JSON envelope of the FX spot-rate API.
  - It takes the first snapshot and builds one seven-column row per currency record.
  - It applies the scale rule: a rate above 100 is divided by 1000.
  - It pads every row to the full field list and overwrites `fx_rates_sek.csv`.

The model covers the transformation between the fetch and the file:

- `Avista.dfy`: `clean_number`, the row filter and mapping loop, the snapshot's header
  and rows, and the run that overwrites the dated file.
- `Fx.dfy`:
  - the lookups, including the error for an empty snapshot list;
  - `safe_float` and the scale rule;
  - the row-building loop, the field-fill loop and the file write.
- `Files.dfy`: the working directory, as a class whose `files` map is updated in
  place. Opening a file with `"w"` replaces its content.
- `Numbers.dfy`: a reference reading of plain decimal notation, used in the worked
  examples and in `Avista.LocaleNumber` and `Avista.LocaleWholeNumber`.
- `Wrappers.dfy`: `Option` and `Result`.

Python's `float()` on a string is a parameter `parseFloat: string -> Option<real>`,
where `None` stands for the exception `float()` raises. Everything else proved about the
scripts holds for every such reading; `Avista.LocaleNumber`, `Avista.LocaleWholeNumber`
and the worked examples use `Numbers.ParseDecimal`.

The HTML table is given as the stripped texts of each row's cells. The JSON envelope is
given as a datatype whose fields are optional strings. A key read with `[key]` that is
absent gives a `MissingKey` error, in the order the script reads the keys. A row
dictionary is a map from the enumeration `Fx.Field` of the seven field names: the script
never puts any other key into a row.

The FX script opens `fx_rates_sek.csv` with `"w"`, so it overwrites the file and writes
the header on every run (`Fx.RunFx`).

## Model

| member | source | states |
|---|---|---|
| `Avista.Replace` | scripts/scripts/fetch_seb_avista.py:15-16 | after replacing a character by text that does not contain it, the character is gone; every other character not in the replacement is in the result exactly when it is in the input |
| `Avista.CleanText` | scripts/scripts/fetch_seb_avista.py:15-16 | the cleaned text contains no no-break space, space, tab or comma |
| `Avista.CleanTextIsPerCharacter` | scripts/scripts/fetch_seb_avista.py:15-16 | the replacement chain equals one in-order pass over the text: blanks dropped, each comma made a point, every other character kept in place |
| `Avista.CleanNumber` | scripts/scripts/fetch_seb_avista.py:11-23 | `None` gives `None`; cleaned text `""` or `"-"` gives `None`; any other cleaned text gives exactly what `float()` reads from it, and text it cannot read gives `None`, not an exception |
| `Avista.BlankTextIsNone` | scripts/scripts/fetch_seb_avista.py:15-19 | text made only of spaces, tabs and no-break spaces gives `None` |
| `Avista.SqueezeGrouped` | scripts/scripts/fetch_seb_avista.py:15 | cleaning digit groups separated by no-break spaces leaves the groups joined, with nothing dropped or added |
| `Avista.CleanLocale` | scripts/scripts/fetch_seb_avista.py:15-16 | the cleaned text of digit groups, a decimal comma and decimals is the joined digits, a point and the decimals |
| `Avista.LocaleNumber` | scripts/scripts/fetch_seb_avista.py:14-21 | any number of digit groups separated by no-break spaces (one group included, as in "10,52"), a comma and decimals are read, under the reference reading `Numbers.ParseDecimal`, as the decimal number they write |
| `Avista.LocaleWholeNumber` | scripts/scripts/fetch_seb_avista.py:14-21 | digit groups separated by no-break spaces, without decimals, are read, under the reference reading `Numbers.ParseDecimal`, as the whole number they write |
| `Avista.CleanNumberExample` | scripts/scripts/fetch_seb_avista.py:11-23 | "1 234,56" with a no-break space is read as 1234.56 |
| `Avista.Accepts` | scripts/scripts/fetch_seb_avista.py:35-39 | a row passes both `continue` tests exactly when it has five cells and its first is "Euro", "Storbritannien" or "USA" |
| `Avista.ToQuote` | scripts/scripts/fetch_seb_avista.py:41-54 | the record of a kept row has cells 0, 1 and 4 as Land, Valuta and Datum, and cells 2 and 3 read as Köpkurs and Säljkurs |
| `Avista.SelectQuotes` | scripts/scripts/fetch_seb_avista.py:32-55 | the collected quotes are no more than the table's rows, and every one is for a target country |
| `Avista.SelectConcat` | scripts/scripts/fetch_seb_avista.py:33-55 | selecting from two tables joined is selecting from each and joining the results |
| `Avista.SelectQuotesSpec` | scripts/scripts/fetch_seb_avista.py:33-55 | the quotes correspond one to one, in increasing table order, to exactly the rows with five cells whose first cell is Euro, Storbritannien or USA; each quote carries cells 0, 1 and 4 unchanged as Land, Valuta and Datum, and cells 2 and 3 through clean_number as Köpkurs and Säljkurs |
| `Avista.SelectMembership` | scripts/scripts/fetch_seb_avista.py:33-55 | a quote is in the output exactly when some accepted row makes it |
| `Avista.ExtractQuotes` | scripts/scripts/fetch_seb_avista.py:32-55 | the loop with its two `continue` filters collects exactly the selected quotes, in order |
| `Avista.SnapshotFile` | scripts/scripts/fetch_seb_avista.py:65-74 | one six-column header, then one six-column line per quote in order: Land, Valuta, the two rates, Datum, and the same load time on every line |
| `Avista.RateCell` | scripts/scripts/fetch_seb_avista.py:70-71 | a rate cell is empty exactly when the rate is missing; a present rate is written as its number |
| `Avista.CsvLine` | scripts/scripts/fetch_seb_avista.py:67-74 | each written line has the header's six cells and ends with the load time |
| `Avista.SnapshotName` | scripts/scripts/fetch_seb_avista.py:57-60 | the file name is `SEB_Avista_`, then the date reading, then `.csv` |
| `Avista.WriteSnapshot` | scripts/scripts/fetch_seb_avista.py:64-74 | the header-then-rows writing loop produces exactly the snapshot file |
| `Avista.RunAvista` | scripts/scripts/fetch_seb_avista.py:32-76 | the file named by today's date is replaced with the snapshot of the selected quotes, no other file changes, and the count reported is the number of quotes |
| `Files.Disk.Overwrite` | scripts/scripts/fetch_seb_avista.py:63 | opening with `"w"` and writing replaces that path's content and leaves every other file as it was |
| `Fx.Extract` | scripts/fetch_seb_fx.py:23-31 | a missing `unit_currency`, a missing snapshot list, an empty snapshot list, a missing `retrieval_date` or a missing record list each stop the run with their own error, in that order; otherwise the source is the unit currency and the first snapshot's date and records |
| `Fx.LaterSnapshotsIgnored` | scripts/fetch_seb_fx.py:28-31 | snapshots after the first change nothing |
| `Fx.Scale` | scripts/fetch_seb_fx.py:41 | a value above 100 is divided by 1000, a value up to 100 is unchanged; the result never exceeds the input, and values up to 100000 end at most 100 |
| `Fx.ScaleIdempotentIff` | scripts/fetch_seb_fx.py:39-41 | applying the rule twice equals applying it once exactly when the raw value is at most 100000 |
| `Fx.ScaleExample` | scripts/fetch_seb_fx.py:41 | 10523 becomes 10.523, 100 stays 100, 100.5 becomes 0.1005 |
| `Fx.SafeFloat` | scripts/fetch_seb_fx.py:39-43 | safe_float never raises: text `float()` cannot read gives `""`, and readable text gives its scaled value |
| `Fx.OrEmpty` | scripts/fetch_seb_fx.py:32-36 | `.get(key, "")` gives the value when the key is present and `""` when it is absent |
| `Fx.Truthy` | scripts/fetch_seb_fx.py:48-50 | the `if mid`, `if bid` and `if offer` tests hold exactly when the value read with `.get(key, "")` is not `""` |
| `Fx.RateColumn` | scripts/fetch_seb_fx.py:48-50 | a rate column is empty exactly when the field is missing or empty |
| `Fx.BuildRow` | scripts/fetch_seb_fx.py:45-53 | every row built has exactly the seven field names |
| `Fx.RowColumns` | scripts/fetch_seb_fx.py:32-53 | every row carries the snapshot's retrieval date and the unit currency; a missing currency code or update time is `""`; a missing or empty rate is `""`, and a present one is safe_float's value |
| `Fx.DollarRate` | scripts/fetch_seb_fx.py:39-41 | safe_float reads "10523" as 10.523 |
| `Fx.DollarExample` | scripts/fetch_seb_fx.py:32-53 | a record with rate "10523", an empty bid rate and no offer rate gives the rate 10.523 and two empty rate columns |
| `Fx.BuildRows` | scripts/fetch_seb_fx.py:30-53 | the loop builds exactly one row per record of the first snapshot, in order |
| `Fx.FillIsNoOp` | scripts/fetch_seb_fx.py:72-77 | on a row that already has all seven field names the fill loop changes nothing |
| `Fx.FillKeepsBuiltRows` | scripts/fetch_seb_fx.py:45-77 | since every built row has all seven field names, filling leaves all the rows as built |
| `Fx.Position` | scripts/fetch_seb_fx.py:61-69 | the field-name list names every field, each exactly once |
| `Fx.Line` | scripts/fetch_seb_fx.py:59-77 | a written line holds the row's values in field-name order |
| `Fx.Header` | scripts/fetch_seb_fx.py:59-71 | the header names the seven columns in the order the lines hold them |
| `Fx.FillRow` | scripts/fetch_seb_fx.py:74-76 | after the fill loop a row has every field name, keeps every value it had, and holds `""` under each name it lacked |
| `Fx.FillAndWrite` | scripts/fetch_seb_fx.py:71-77 | a header first; then each row gains `""` under every missing field name, keeps every value it had and gets nothing else, and is written as one line |
| `Fx.DataLine` | scripts/fetch_seb_fx.py:45-53 | the line written for a record holds, in order, the retrieval date, the currency code or `""`, the three rate columns, the update time or `""`, and the unit currency |
| `Fx.FxFile` | scripts/fetch_seb_fx.py:45-77 | the file is the header, then one line per record of the first snapshot, in order |
| `Fx.FxFileColumns` | scripts/fetch_seb_fx.py:45-53 | every data line of the file starts with the snapshot's retrieval date and ends with the unit currency, and each rate column is empty exactly when its field is missing or empty |
| `Fx.RunFx` | scripts/fetch_seb_fx.py:23-79 | a failed lookup or an empty snapshot list stops the run before any file is touched; otherwise `fx_rates_sek.csv` is overwritten, not appended to, with the file for the first snapshot, and the count reported is the number of rows |

## Left out

- Network I/O (`requests.get`, `urllib.request.urlopen`, timeouts, `raise_for_status`): the table and the envelope are inputs.
- HTML parsing with BeautifulSoup and the CSS selector: each row is given as its stripped cell texts.
- JSON decoding and the `SEB_API_KEY` environment variable: the envelope is given decoded.
- JSON values of other types than the model's (numbers, `null`, `false`, objects) anywhere in the envelope: the record fields are optional strings and the snapshot lists optional lists. A `null` snapshot list, for example, is falsy and raises the same RuntimeError as an empty one; the model cannot express it.
- Python's `float()` itself: it is the parameter `parseFloat`. `Numbers.ParseDecimal` reads only plain decimal notation; it instantiates the parameter in the worked examples and in `Avista.LocaleNumber` and `Avista.LocaleWholeNumber`. Every other proof holds for any `parseFloat`.
- Floating-point rounding: values are `real`, so `v / 1000` is exact.
- The `:.6f` formatting: a rate column holds `Fixed6(v)`, the value handed to the formatter. The `ValueError` it raises when safe_float returns `""` for a non-empty unreadable field is not modelled. In the script that error stops the run inside the row-building loop, before the file is opened, so `fx_rates_sek.csv` keeps its old content; `Fx.RunFx` instead writes the file with a `Fixed6(EmptyString)` cell.
- The Stockholm time zone and the clock: the two `strftime` readings are the parameter `LocalTime`. The script takes both from one clock reading `now_se`; the model takes them as two strings and does not relate the date in the file name to the load time in the rows.
- CSV quoting and escaping, the UTF-8 byte-order mark, line endings, how the csv module renders a float, and the final `print`: a file is a sequence of lines of cells.
- `csv.DictWriter`'s `ValueError` for a row with a key outside the field names: rows built by the script never have one, and a `Fx.Row` cannot hold one.
- Sharing of the row dictionaries: the fill loop changes the dictionaries held in `rows` in place. The model writes the filled rows into a new sequence. After the loop only `len(rows)` is read, and filling does not change it, so the file written and the count reported are the same.
