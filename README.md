# Sensor readings API: cleaning and selection pipeline

This project models the one handler with real logic in the sensor dashboard's
API, `obtener_datos_proyecto` in `proyecto/API/views.py`. A client posts a field
name (`nombre_campo`), a count (`cantidad_valores`), a time window
(`fecha_inicio`, `fecha_fin`), a project and a node. The handler then:

1. cuts both window bounds at their first `.`, dropping the microseconds;
2. reads the readings `(id, valor, fecha_lectura)` of that field, coerces
   `valor` to a number and drops the rows where that fails;
3. applies the field's rule, with the field name lower-cased first:
   `temperatura` keeps values of at least 0; `humedad` multiplies by 0.10,
   rounds to one decimal and keeps values of at most 100; any other field keeps
   everything;
4. when fewer rows than requested survive, runs the same query again with a
   `LIMIT` of the number missing, cleans that batch the same way and appends it;
5. sorts newest first by `fecha_lectura` and keeps the first `cantidad_valores`
   rows (pandas `head`);
6. answers with `{id, valor}` for each row.

Modules, one per concern of the handler:

- `Wrappers` (`wrappers.dfy`): the `Option` type.
- `Cleaning` (`cleaning.dfy`): readings, field names, the humidity rounding,
  and steps 2-3 as frame operations (`DropNonNumeric`, `ApplyFieldRule`,
  `CleanBatch`). `CleanRow` is a reference definition of what happens to one
  row on its own.
- `Selection` (`selection.dfy`): step 5 (`SortDesc`, `Head`, `Select`) and the
  projection of step 6 (`Project`).
- `Api` (`api.dfy`): step 1 (`TrimAtDot`), the backfill of step 4
  (`Combined`), the whole response (`Response`), and the handler as a method,
  `ObtenerDatosProyecto`. The method rebinds a local frame `df` stage by stage,
  as the Python code rebinds its DataFrame. `CleanFrame` is the cleaning done
  at lines 44-57 and again at lines 78-87.

The two SQL queries are the data source. Their results are parameters:
`fetched` is what the first query returns. `refetched` is what the second query
returns before its `LIMIT`, and the model applies the `LIMIT` itself (`Limit`).
The Python handler answers only with the HTTP response. The model's
`ObtenerDatosProyecto` also returns the parameters it hands to each query
(`Query`), so that its contract can state them. The second query's parameters
are present only when that query runs.

The backfill runs the same query as the first fetch, ordered the same way, so it
reads the newest rows again rather than further rows. When the data has not
changed between the two queries, the backfill adds only copies of rows already
kept (`BackfillRepeatsRows`). The response can then list one reading twice
(`DuplicateIdsExample`). The model keeps this behaviour, because it is what the
code does.

The handler sets no upper bound on temperatures and no lower bound on
humidities. It keeps no outliers, computes no bands or statistics, and parses
no dates: the window bounds go to the query as trimmed strings.

## Model

| member | source | states |
|---|---|---|
| `Api.TrimAtDot` | proyecto/API/views.py:18-20 | the trimmed bound is a prefix of the input with no `.`; it stops exactly at the first `.`; a bound without `.` comes back unchanged |
| `Cleaning.DropNonNumericMembers` | proyecto/API/views.py:44-46 | a row survives coercion and `dropna` exactly when its value is numeric, and it keeps its id, value and timestamp |
| `Cleaning.CleanBatchAppend` | proyecto/API/views.py:44-57 | cleaning works row by row: cleaning `a + b` gives cleaned `a` followed by cleaned `b`, so no row is added or moved |
| `Cleaning.CleanBatchSingle` | proyecto/API/views.py:44-57 | one row is cleaned as the per-row reference `CleanRow` says (dropped if non-numeric, then the field's rule) |
| `Cleaning.CleanBatchIsRowByRow` | proyecto/API/views.py:44-57 | the cleaned batch equals the per-row reference applied to each row in order and concatenated |
| `Cleaning.FieldOfIgnoresCase` | proyecto/API/views.py:49-52 | two field names that differ only in letter case select the same rule |
| `Cleaning.FieldOfNames` | proyecto/API/views.py:49-52 | the temperature rule is chosen exactly for "temperatura" in any case, the humidity rule exactly for "humedad" in any case |
| `Cleaning.TemperaturaRule` | proyecto/API/views.py:49-51 | for temperatura a row is kept exactly when its value is numeric and at least 0; kept values are unchanged |
| `Cleaning.RoundHalfEven` | proyecto/API/views.py:54 | the result is an integer within 1/2 of the input, and a tie goes to the even neighbour |
| `Cleaning.RoundTenth` | proyecto/API/views.py:54 | `round(x, 1)` is within 0.05 of x and is a whole number of tenths |
| `Cleaning.ToPercentThreshold` | proyecto/API/views.py:54-57 | a converted humidity is at most 100 exactly when the stored value is at most 1000.5; there is no lower limit |
| `Cleaning.HumedadRule` | proyecto/API/views.py:52-57 | for humedad a row is kept exactly when its converted value is at most 100; the kept value is the converted value of a numeric row with the same id and timestamp |
| `Cleaning.OtherRule` | proyecto/API/views.py:44-57 | for any other field a row is kept exactly when its value is numeric, with its value unchanged |
| `Cleaning.CleanBatchOrigin` | proyecto/API/views.py:44-57 | whatever the field, every cleaned row comes from a numeric row of the batch with the same id and timestamp |
| `Api.CleanFrame` | proyecto/API/views.py:44-57 | the frame rebound through coercion, `dropna` and the field's rule is the cleaned batch |
| `Api.Limit` | proyecto/API/views.py:74 | the second query returns at most the missing number of rows, a prefix of its ordered result |
| `Api.BackfillProperties` | proyecto/API/views.py:59-90 | the cleaned first batch always leads the frame; it is the whole frame when it has enough rows; after a backfill the frame has at most `cantidad_valores` rows, so `head` drops none |
| `Api.BackfillRepeatsRows` | proyecto/API/views.py:59-90 | when both queries see the same rows, the frame holds no row that the cleaned first batch lacks |
| `Api.DuplicateIdsExample` | proyecto/API/views.py:59-97 | for temperatura, with one numeric and one non-numeric reading and 2 values requested, the response lists the numeric reading twice |
| `Selection.SortDesc` | proyecto/API/views.py:93 | the sorted frame is sorted newest first and is a permutation of the input |
| `Selection.HeadProperties` | proyecto/API/views.py:93 | `head(n)` returns a prefix of the frame: all of it when n is at least its length, exactly n rows for 0 <= n <= length, the frame without its last -n rows for a negative n, and nothing when -n exceeds the length |
| `Selection.SelectProperties` | proyecto/API/views.py:93 | the selection has `head`'s length, is sorted newest first, is a sub-multiset of the frame, and no row left out is newer than a row kept |
| `Selection.Project` | proyecto/API/views.py:96-98 | each response record carries exactly the id and value of the selected row at the same position |
| `Api.CombinedRows` | proyecto/API/views.py:42-90 | every row of the frame comes from a numeric row of one of the two query results with the same id, and satisfies the field's bound |
| `Api.ResponseRecords` | proyecto/API/views.py:93-98 | each response record is the id and value of a row of the frame |
| `Api.ResponseProperties` | proyecto/API/views.py:42-98 | the response has `head`'s length; temperatures are at least 0, humidities at most 100; every id comes from a row the queries returned |
| `Api.ObtenerDatosProyecto` | proyecto/API/views.py:8-98 | the first query gets the field name unchanged and the trimmed bounds; the second query runs exactly when the cleaned first batch is short, with a positive LIMIT equal to the shortfall; the records are the response |

## Left out

- HTTP and JSON: decoding the request body, building the `HttpResponse`, and the CSRF exemption (lines 7-16, 101) are transport. The request is a typed value.
- Missing or ill-typed request fields are not modelled, because every `Request` field is total and typed. A missing field name, date or count, or a non-integer count, raises an error in Python (lines 19-20, 49, 60, 93). A missing `proyecto_id` or `nodo_id` (lines 15-16) raises nothing: it reaches both queries as NULL (lines 32-35, 71-75), `= NULL` matches no row, and the handler answers `{"datos": []}`. The typed `Request` and `Query` cannot express that input.
- SQL construction and execution (lines 23-36, 62-76) is the data source. Its results are parameters. The model does not assume the first result is ordered, and no property depends on it.
- `pd.to_numeric(..., errors='coerce')`: the syntax of numeric strings is not modelled. Each row carries the coercion's outcome as an `Option`.
- Floating point: values are exact reals, and `round(x, 1)` is modelled as round-half-to-even on exact reals. Reals have no infinities, but `pd.to_numeric(errors='coerce')` (line 45) reads "inf" and "-inf" as numbers: a `+inf` temperature passes `>= 0` (line 51), and a `-inf` humidity survives `round` and passes `<= 100` (lines 54-57). Such rows are not modelled.
- ToPercentThreshold: the boundary 1000.5 holds on exact reals only. In binary floating point, `1000.5 * 0.10` lands just above 100.05 and may be rounded to 100.1 and dropped.
- SortDesc: the order among rows with equal timestamps is this model's own choice. pandas' default sort is not stable, so no property is stated about ties.
- Timestamps are modelled as ordered integers. NULL timestamps, which pandas would sort last, are not modelled.
- FieldOf: lower-casing covers the letters A-Z only. Python's `lower()` also maps other characters, but none of them lower-cases to a letter of "temperatura" or "humedad", so the rule selected is the same.
- `proyecto/VistaGrafica/views.py` (a client call to this API, Plotly figures, template views) and `proyecto/VistaGrafica/urls.py` (routing) are presentation and configuration.
