# Long-date formatter of the letter generator

The letter generator fills official letters ("oficios") from a Word template.
The dates in a letter are written in Spanish long form, e.g. "15 de enero del 2025".
They come from `formatear_fecha`, which takes a calendar date and returns
`"<day> de <month name> del <year>"`. The month name is entry `month - 1` of a
fixed twelve-entry table, and the day and year are printed the way Python's
`str(int)` prints them.

The project has two modules:

- `Decimal` (decimal.dfy) models `str(n)` for `n >= 0` as `DecimalString`.
  `ParseDecimal` reads a digit string back. A canonical digit string is
  non-empty, holds only digits and has no leading zero (except "0" itself).
  `DecimalString` and `ParseDecimal` are proved to be inverse bijections
  between the naturals and the canonical digit strings.
- `Fecha` (fecha.dfy) holds the `Date` value, the month table `MonthNames`,
  `MonthName` (the index `meses[month - 1]`) and `FormatearFecha`.
  It also holds `ParseFecha`, a reader for the long form. The program has no
  such reader: it is an independent description of the output format.
  `FormatearFecha` is proved against it in both directions. Every date reads
  back from its text, and every text that reads as a date is exactly that
  date's formatting. So the text determines the date.

`FormatearFecha` requires `1 <= month <= 12`, the range of a Python `date`'s
month, which is what `formatear_fecha` is called with. The `Date` fields are
otherwise unconstrained natural numbers.

## Model

| member | source | states |
|---|---|---|
| `Decimal.DecimalString` | oficios_automatizados.py:27-30 | `str(n)` of a day or year is a canonical digit string (digits only, no leading zero) whose base-ten value is `n` |
| `Decimal.DecimalStringOfParse` | oficios_automatizados.py:27-30 | every canonical digit string is the rendering of its own value, so `str` hits exactly the canonical strings |
| `Decimal.DecimalStringInjective` | oficios_automatizados.py:27-30 | different numbers are printed differently |
| `Decimal.DecimalStringLength` | oficios_automatizados.py:29-30 | a number with k digits (0 counts as one digit) is printed with exactly k characters: nothing is padded or truncated |
| `Fecha.MonthNames` | oficios_automatizados.py:23-26 | the twelve month words of `meses`, January first, character for character |
| `Fecha.FormatearFecha` | oficios_automatizados.py:22-30 | `formatear_fecha`: the text is `DecimalString(day) + " de " + MonthName(month) + " del " + DecimalString(year)`, defined for months 1 to 12; its properties are the lemmas below |
| `Fecha.MonthName` | oficios_automatizados.py:23-28 | the index `meses[month - 1]` is defined for months 1 to 12, and the word is non-empty lower-case letters, with no digit and no space |
| `Fecha.MonthNamesDistinct` | oficios_automatizados.py:23-26 | the table has exactly 12 entries, pairwise distinct |
| `Fecha.DistinctMonthsDistinctNames` | oficios_automatizados.py:23-28 | two different months get two different words |
| `Fecha.MonthNumberOfName` | oficios_automatizados.py:23-28 | looking a month's word up in the table gives that month back |
| `Fecha.MonthNumberSound` | oficios_automatizados.py:23-28 | any word found in the table is the name of the month number found |
| `Fecha.FirstAndLastMonth` | oficios_automatizados.py:23-28 | month 1 is "enero" and month 12 is "diciembre" |
| `Fecha.FormatearFechaReadsBack` | oficios_automatizados.py:22-30 | the text is a canonical day, " de ", a month word, " del ", a canonical year, and it reads back as the same date |
| `Fecha.ParseFechaSound` | oficios_automatizados.py:22-30 | any text of that form is exactly the formatting of the date it reads as, so each date has one spelling |
| `Fecha.FormatearFechaInjective` | oficios_automatizados.py:22-30 | two dates that differ in day, month or year get different texts |
| `Fecha.DayWithoutLeadingZero` | oficios_automatizados.py:27-30 | for a day of at least 1 the text starts with a digit 1-9, and a day below ten is one digit followed by the space ("5 de", not "05 de") |
| `Fecha.YearInFull` | oficios_automatizados.py:29-30 | a year of k digits (0 counts as one digit) fills the last k characters, right after " del ", and they read back as the whole year |
| `Fecha.FifteenthOfJanuary2025` | oficios_automatizados.py:30 | 15 January 2025 is written "15 de enero del 2025" |

## Left out

- The Streamlit page setup, title, image, password prompt, warning and stop (oficios_automatizados.py:33-43) are presentation code, not logic.
- The password comparison (oficios_automatizados.py:40-43) is a plain equality check against a fixed secret. It only gates the user interface.
- Creating the output folder (oficios_automatizados.py:18-19) is file-system I/O.
- The imports of pandas, docx, zipfile and BytesIO (oficios_automatizados.py:3-8) and the constants TEMPLATE_PATH, EXCEL_PATH and REGISTRO_PATH (oficios_automatizados.py:11-13) are not used by any code in the file. OUTPUT_FOLDER_BASE and IMAGE_PATH (oficios_automatizados.py:14-15) are used only by the folder creation and the image display, which are left out here.
- Template substitution, the batch loop, PDF and zip packaging and the history ledger are not part of this model: oficios_automatizados.py ends at line 45 with the comment `# Resto del código …`, so these have no code to model.
- MonthName: does not reproduce Python's list indexing outside months 1 to 12. In Python, month 0 to -11 wrap around (`meses[-1]` is "diciembre") and month 13 or more raises IndexError. A Python `date` never has such a month, so the model requires 1 to 12.
- `Date` holds `nat` fields, with no Python `date` object behind them. `FormatearFecha` accepts any day and year, including day 0 and days or years a Python `date` forbids, and formats them the same way. The calendar rules of a `date` (years 1 to 9999, days within the month) are not modelled because the formatter does not depend on them.
