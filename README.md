# Term extraction director — document assembly and entity classification

A model, in Dafny, of the logic in the term-extraction service's
`src/ted_app/main.py`. The service takes a dataset metadata record and does
three things:

1. It builds one free-text document from the record (`preprocess_dataset`).
2. It sends the document to a named-entity-recognition (NER) service.
3. It splits the affirmed entities of the response into medical terms and
   other terms (`extract_medical_entities`).

The batch route (`index_datasets_bulk`) runs the classification once per
element of a bulk response and collects the results into two lists, in
order.

Files:

- `errors.dfy` (module `Errors`): `Option`, and `Result` with the two Python
  exceptions the core raises (`TypeError` and `KeyError`), modelled as values.
- `document.dfy` (module `DocumentAssembly`): the record datatypes,
  `' '.join` (`Join`), its inverse `str.split(' ')` (`Split`), the
  description collectors, and `PreprocessDataset`. The order in which Python
  iterates a `set` is unspecified. The model takes that order as a parameter
  (`tableOrder`, `columnOrder`) and requires it to list the set's elements
  once each (`IsEnumeration`). `EnumerationExists` proves such an order
  always exists.
- `classification.dfy` (module `EntityClassification`): the method
  `ExtractMedicalEntities` has the source's two nested loops. It is proved
  equal to the fold `Classify`. Lemmas about `Classify` state what the two
  maps hold.
- `bulk.dfy` (module `BatchIndexing`): the method `IndexDatasetsBulk`, the
  per-response loop of the batch route.

Modelling decisions:

- `abstract`, `description` and `keywords` are `Option<string>`. The code does
  not turn `None` into `""`: `title + ' ' + None` raises `TypeError`. So
  `PreprocessDataset` returns `Err(TypeError(field))` for the first `None`
  field in concatenation order.
- Empty fields and empty descriptions are kept. The document always has four
  separators between the summary fields and one before `all_descriptions`,
  even when a part is empty.
- Columns are read from `elements`, as `main.py` reads them.
  `dataset_model.py` names that field `columns`.
- An entity is a record of three things: its status
  (`meta_anns.Status.value`, `None` if any key on that path is missing), its
  `types` (`None` if missing), and an opaque `prettyName` that stands for the
  rest of the entity. A missing key gives `Err(KeyError(..))`, at the same
  point where Python raises.
- A response dictionary is a sequence of `(id, entity)` pairs in iteration
  order. `Occurrences` lists the pairs in the order the nested loops visit
  them. A later pair for the same id overwrites an earlier one.
- `MEDICAL_CATEGORIES` is the parameter `categories`.

## Model

| member | source | states |
|---|---|---|
| `DocumentAssembly.PreprocessDataset` | src/ted_app/main.py:17-52 | Builds a document exactly when abstract, description and keywords are all non-`None`. Otherwise it fails with `TypeError` naming the first `None` field, in the order abstract, description, keywords. |
| `DocumentAssembly.DocumentLayout` | src/ted_app/main.py:43-51 | The document is the single-space join of title, abstract, description, keywords, then the table descriptions (or one empty piece when there are none), then the column descriptions, in that order. |
| `DocumentAssembly.AllDescriptionsIsJoin` | src/ted_app/main.py:43-47 | `all_descriptions` is the space-join of its pieces. It is `""` when both sets are empty. It is `" "` followed by the joined column descriptions when there are no table descriptions. |
| `DocumentAssembly.DescriptionsOnce` | src/ted_app/main.py:29-42 | The table block holds each string-typed table description exactly once and nothing else. The column block holds each string-typed column description, from any table, exactly once and nothing else. |
| `DocumentAssembly.TableDescriptions` | src/ted_app/main.py:29-33 | A string is collected exactly when some table's description is that string. `None` descriptions are skipped; empty strings are kept. |
| `DocumentAssembly.ColumnDescriptions` | src/ted_app/main.py:34-39 | A string is collected exactly when some column of some table has it as its description. |
| `DocumentAssembly.ElementDescriptions` | src/ted_app/main.py:37-38 | Within one table, a string is collected exactly when some column's description is that string. |
| `DocumentAssembly.EnumerationCounts` | src/ted_app/main.py:41-42 | An iteration order of a set holds each element exactly once and nothing else. It is as long as the set is large. |
| `DocumentAssembly.EnumerationExists` | src/ted_app/main.py:41-42 | Every set has an iteration order, so the order parameters exclude no record. |
| `DocumentAssembly.EnumerationOfSingleton` | src/ted_app/main.py:41-42 | A one-element set has exactly one iteration order. |
| `DocumentAssembly.JoinAppend` | src/ted_app/main.py:45-47 | Joining two non-empty lists gives the two joins with one space between them. |
| `DocumentAssembly.SplitJoin` | src/ted_app/main.py:45-47 | Splitting on spaces undoes `' '.join` when no part contains a space. |
| `DocumentAssembly.DocumentWords` | src/ted_app/main.py:51 | When no field or description contains a space, splitting the document gives back the fields, then the table descriptions, then the column descriptions. |
| `DocumentAssembly.TestTableSet` | tests/helpers.py:112-116 | The test record's table-description set is the single table description. |
| `DocumentAssembly.TestColumnSet` | tests/helpers.py:106-116 | The test record's two columns share a description, so its column-description set has one element. |
| `DocumentAssembly.TestDatasetDocument` | tests/test_ted_app.py:17-27 | In any iteration order, the test record's document is the four summary fields, then the table description once, then the shared column description once. |
| `EntityClassification.ExtractMedicalEntities` | src/ted_app/main.py:78-88 | The nested loops compute `Classify`: the final maps, or the `KeyError` of the first malformed entity. |
| `EntityClassification.ErrorStops` | src/ted_app/main.py:81-83 | An entity that raises ends the whole classification with its error. |
| `EntityClassification.ErrorPersists` | src/ted_app/main.py:81-83 | Entities after the one that raised do not change the result. |
| `EntityClassification.ClassifyErrorCases` | src/ted_app/main.py:83-84 | Classification fails exactly when some entity lacks its status, or is affirmed and lacks its types. |
| `EntityClassification.ClassifyKeepsLastOccurrence` | src/ted_app/main.py:81-87 | An id is in `medical_terms` exactly when it has an affirmed occurrence with a medical type. Its value is the last such occurrence. The same holds for `other_terms` with occurrences that have no medical type. |
| `EntityClassification.LastOccurrenceFound` | src/ted_app/main.py:82-87 | The last occurrence found is affirmed and is classified as asked. One is found exactly when such an occurrence exists. |
| `EntityClassification.ClassifiedTermsAreAffirmed` | src/ted_app/main.py:83-87 | Only affirmed entities are stored. Every medical term has a type in the categories; every other term has none. |
| `EntityClassification.ClassifiedKeysAreAffirmedKeys` | src/ted_app/main.py:81-87 | The ids of the two maps together are exactly the ids with at least one affirmed occurrence. |
| `EntityClassification.ClassifiedDisjoint` | src/ted_app/main.py:84-87 | When no id has affirmed occurrences that classify differently, the two maps share no id. |
| `EntityClassification.OverlapWithoutConsistency` | src/ted_app/main.py:84-87 | An id affirmed once with a medical type and later without one is in both maps. |
| `EntityClassification.SplitsAffirmedEntities` | src/ted_app/main.py:83-87 | An affirmed disease is filed as medical and an affirmed product as other. An entity with status `"Other"` is dropped. |
| `BatchIndexing.IndexDatasetsBulk` | src/ted_app/main.py:110-115 | Succeeds exactly when every response element classifies. Both lists are then as long as the response, and element `i` of each is the classification of response element `i`. Otherwise the error is that of the first failing element. |

## Left out

- `call_medcat` and `call_medcat_bulk` (src/ted_app/main.py:54-76) are HTTP
  requests to the recognition service. The model takes their responses as
  inputs.
- The routes, the `/status` probe, and the timing and logging
  (src/ted_app/main.py:90-103, 116-118) are transport and diagnostics. The
  single-record route is `PreprocessDataset`, then the recognition call, then
  `ExtractMedicalEntities` on the response's annotations.
- The batch route builds one document per dataset (src/ted_app/main.py:108).
  That list comprehension is `PreprocessDataset` applied to each dataset and
  is not a separate member.
- The response-shape lookups `medcat_resp["result"]` and
  `dataset_resp["annotations"]` are not modelled. The input is already the
  list of annotation dictionaries.
- The contents of `MEDICAL_CATEGORIES` are not modelled: they come from a
  module that is not part of this model.
- `KeyError` detail: a missing `meta_anns`, `Status` or `value` key is one
  error, `KeyError("meta_anns.Status.value")`. JSON values of the wrong type
  (a status that is not a string, `types` that is not a list) are not
  modelled.
- A sequence of pairs can repeat an id, which a Python dictionary cannot.
  The model treats such a repeat like a repeat across dictionaries: the
  later one wins.
- The rest of the dataset schema (src/ted_app/dataset_model.py) and its
  pydantic validation are not modelled. Only the fields that
  `preprocess_dataset` reads are kept.
- DocumentAssembly.TestDatasetDocument: states the test's "appears once"
  checks (`document.count("column") == 1`, `document.count("table") == 1`)
  at the level of the joined pieces, not as substring counts. Substring
  counting over a literal string of this length is not computed by the
  verifier.
