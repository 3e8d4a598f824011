/** Document assembly: the free-text document that is sent for named-entity
    recognition, built from a dataset record (`preprocess_dataset`).

    Python's `set(...)` followed by `' '.join(...)` visits the set in an
    order the language leaves unspecified. The model takes that order as a
    parameter: a sequence that holds every element of the set exactly once
    (`IsEnumeration`). `EnumerationExists` shows that such an order exists
    for every set, so the requirement never excludes a dataset. */
module DocumentAssembly {
  import opened Errors

  /** A column of a structural table; only its description matters here. */
  datatype Element = Element(description: Option<string>)

  /** A structural table: an optional description and its columns. */
  datatype Table = Table(description: Option<string>, elements: seq<Element>)

  /** The text-bearing part of a dataset summary: `title` is required,
      the other three fields may be `None`. */
  datatype Summary = Summary(
    title: string,
    abstractText: Option<string>,
    description: Option<string>,
    keywords: Option<string>)

  datatype Dataset = Dataset(summary: Summary, structuralMetadata: seq<Table>)

  // ---------------------------------------------------------------------
  // Joining and splitting on a single space
  // ---------------------------------------------------------------------

  /** `' '.join(parts)` */
  function Join(parts: seq<string>): string
  {
    if |parts| == 0 then ""
    else if |parts| == 1 then parts[0]
    else parts[0] + " " + Join(parts[1..])
  }

  /** `s.split(' ')`: the pieces between single spaces; always at least one. */
  function Split(s: string): (r: seq<string>)
    ensures |r| >= 1
  {
    if s == [] then [""]
    else if s[0] == ' ' then [""] + Split(s[1..])
    else
      var rest := Split(s[1..]);
      [[s[0]] + rest[0]] + rest[1..]
  }

  predicate SpaceFree(s: string)
  {
    forall i :: 0 <= i < |s| ==> s[i] != ' '
  }

  /** Joining two non-empty lists is joining their joins. */
  lemma {:induction false} JoinAppend(a: seq<string>, b: seq<string>)
    requires a != [] && b != []
    ensures Join(a + b) == Join(a) + " " + Join(b)
  {
    if |a| == 1 {
      assert a + b == [a[0]] + b;
      if |b| == 1 {
      } else {
        assert (a + b)[1..] == b;
      }
    } else {
      assert (a + b)[1..] == a[1..] + b;
      JoinAppend(a[1..], b);
    }
  }

  /** Splitting text that starts with a space-free word. */
  lemma {:induction false} SplitWord(x: string, y: string)
    requires SpaceFree(x)
    ensures Split(x + y) == [x + Split(y)[0]] + Split(y)[1..]
  {
    if x == [] {
      assert x + y == y;
      assert x + Split(y)[0] == Split(y)[0];
      assert Split(y) == [Split(y)[0]] + Split(y)[1..];
    } else {
      assert (x + y)[0] == x[0];
      assert (x + y)[1..] == x[1..] + y;
      SplitWord(x[1..], y);
      assert [x[0]] + (x[1..] + Split(y)[0]) == x + Split(y)[0];
    }
  }

  /** Splitting undoes joining when no part contains a space. */
  lemma {:induction false} SplitJoin(parts: seq<string>)
    requires parts != []
    requires forall i :: 0 <= i < |parts| ==> SpaceFree(parts[i])
    ensures Split(Join(parts)) == parts
  {
    if |parts| == 1 {
      SplitWord(parts[0], "");
      assert parts[0] + "" == parts[0];
    } else {
      var rest := Join(parts[1..]);
      SplitJoin(parts[1..]);
      SplitWord(parts[0], " " + rest);
      assert parts[0] + " " + rest == parts[0] + (" " + rest);
      assert Split(" " + rest) == [""] + Split(rest) by {
        assert (" " + rest)[1..] == rest;
      }
      assert parts[0] + "" == parts[0];
      assert parts == [parts[0]] + parts[1..];
    }
  }

  // ---------------------------------------------------------------------
  // Orders of sets
  // ---------------------------------------------------------------------

  function ToSet(xs: seq<string>): set<string>
  {
    set x | x in xs
  }

  /** `order` lists the elements of `s`, each once: one possible iteration
      order of a Python set. */
  predicate IsEnumeration(order: seq<string>, s: set<string>)
  {
    && (forall i, j :: 0 <= i < j < |order| ==> order[i] != order[j])
    && (forall x :: x in order ==> x in s)
    && (forall x :: x in s ==> x in order)
  }

  ghost function SomeEnumeration(s: set<string>): (order: seq<string>)
    ensures IsEnumeration(order, s)
    decreases |s|
  {
    if s == {} then []
    else
      var x :| x in s;
      var rest := SomeEnumeration(s - {x});
      assert forall i :: 0 <= i < |rest| ==> rest[i] != x;
      [x] + rest
  }

  /** Every set has an iteration order. */
  lemma EnumerationExists(s: set<string>)
    ensures exists order :: IsEnumeration(order, s)
  {
    var order := SomeEnumeration(s);
    assert IsEnumeration(order, s);
  }

  /** An iteration order holds each element of the set exactly once and
      nothing else, so it is as long as the set is large. */
  lemma {:induction false} EnumerationCounts(order: seq<string>, s: set<string>)
    requires IsEnumeration(order, s)
    ensures |order| == |s|
    ensures forall x :: multiset(order)[x] == if x in s then 1 else 0
  {
    if order == [] {
      assert forall x :: x !in s by {
        forall x ensures x !in s {
          assert x !in order;
        }
      }
      assert s == {};
    } else {
      var x := order[0];
      var rest := order[1..];
      assert order == [x] + rest;
      assert x !in rest by {
        forall i | 0 <= i < |rest| ensures rest[i] != x {
          assert rest[i] == order[i + 1];
        }
      }
      assert IsEnumeration(rest, s - {x}) by {
        forall i, j | 0 <= i < j < |rest| ensures rest[i] != rest[j] {
          assert rest[i] == order[i + 1] && rest[j] == order[j + 1];
        }
        forall y ensures y in rest <==> y in s - {x} {
          assert y in order <==> y == x || y in rest;
        }
      }
      EnumerationCounts(rest, s - {x});
      assert multiset(order) == multiset{x} + multiset(rest);
      assert s == (s - {x}) + {x};
    }
  }

  /** The only order of a one-element set. */
  lemma EnumerationOfSingleton(order: seq<string>, x: string)
    requires IsEnumeration(order, {x})
    ensures order == [x]
  {
    EnumerationCounts(order, {x});
    assert order[0] in {x};
  }

  // ---------------------------------------------------------------------
  // Collecting descriptions
  // ---------------------------------------------------------------------

  /** The string-typed descriptions of the tables, in table order
      (duplicates and empty strings kept). */
  function TableDescriptions(tables: seq<Table>): (r: seq<string>)
    ensures |r| <= |tables|
    ensures forall s :: s in r <==>
      exists i :: 0 <= i < |tables| && tables[i].description == Some(s)
  {
    if tables == [] then []
    else
      var head := match tables[0].description
        case Some(s) => [s]
        case None => [];
      var rest := TableDescriptions(tables[1..]);
      assert forall s :: (exists i :: 0 <= i < |tables[1..]| && tables[1..][i].description == Some(s)) ==>
        exists i :: 0 <= i < |tables| && tables[i].description == Some(s)
      by {
        forall s | exists i :: 0 <= i < |tables[1..]| && tables[1..][i].description == Some(s)
          ensures exists i :: 0 <= i < |tables| && tables[i].description == Some(s)
        {
          var i :| 0 <= i < |tables[1..]| && tables[1..][i].description == Some(s);
          assert tables[i + 1].description == Some(s);
        }
      }
      assert forall i :: 1 <= i < |tables| ==> tables[i] == tables[1..][i - 1];
      head + rest
  }

  /** The string-typed descriptions of a list of columns, in order. */
  function ElementDescriptions(elements: seq<Element>): (r: seq<string>)
    ensures forall s :: s in r <==>
      exists j :: 0 <= j < |elements| && elements[j].description == Some(s)
  {
    if elements == [] then []
    else
      var head := match elements[0].description
        case Some(s) => [s]
        case None => [];
      var rest := ElementDescriptions(elements[1..]);
      assert forall s :: (exists j :: 0 <= j < |elements[1..]| && elements[1..][j].description == Some(s)) ==>
        exists j :: 0 <= j < |elements| && elements[j].description == Some(s)
      by {
        forall s | exists j :: 0 <= j < |elements[1..]| && elements[1..][j].description == Some(s)
          ensures exists j :: 0 <= j < |elements| && elements[j].description == Some(s)
        {
          var j :| 0 <= j < |elements[1..]| && elements[1..][j].description == Some(s);
          assert elements[j + 1].description == Some(s);
        }
      }
      assert forall j :: 1 <= j < |elements| ==> elements[j] == elements[1..][j - 1];
      head + rest
  }

  /** The string-typed descriptions of every column of every table, table
      by table. */
  function ColumnDescriptions(tables: seq<Table>): (r: seq<string>)
    ensures forall s :: s in r <==>
      exists i, j :: 0 <= i < |tables| && 0 <= j < |tables[i].elements| &&
        tables[i].elements[j].description == Some(s)
  {
    if tables == [] then []
    else
      var rest := ColumnDescriptions(tables[1..]);
      assert forall i :: 1 <= i < |tables| ==> tables[i] == tables[1..][i - 1];
      assert forall s :: s in rest ==>
        exists i, j :: 0 <= i < |tables| && 0 <= j < |tables[i].elements| &&
          tables[i].elements[j].description == Some(s)
      by {
        forall s | s in rest
          ensures exists i, j :: (0 <= i < |tables| && 0 <= j < |tables[i].elements| &&
            tables[i].elements[j].description == Some(s))
        {
          var i, j :| 0 <= i < |tables[1..]| && 0 <= j < |tables[1..][i].elements| &&
            tables[1..][i].elements[j].description == Some(s);
          assert tables[i + 1].elements[j].description == Some(s);
        }
      }
      assert forall s :: (exists i, j :: (0 <= i < |tables| && 0 <= j < |tables[i].elements| &&
          tables[i].elements[j].description == Some(s))) ==>
        s in ElementDescriptions(tables[0].elements) + rest
      by {
        forall s | exists i, j :: (0 <= i < |tables| && 0 <= j < |tables[i].elements| &&
            tables[i].elements[j].description == Some(s))
          ensures s in ElementDescriptions(tables[0].elements) + rest
        {
          var i, j :| 0 <= i < |tables| && 0 <= j < |tables[i].elements| &&
            tables[i].elements[j].description == Some(s);
          if i > 0 {
            assert tables[1..][i - 1].elements[j].description == Some(s);
          }
        }
      }
      ElementDescriptions(tables[0].elements) + rest
  }

  // ---------------------------------------------------------------------
  // The document
  // ---------------------------------------------------------------------

  /** The string-typed descriptions of the tables, as a set. */
  function TableSet(d: Dataset): set<string>
  {
    ToSet(TableDescriptions(d.structuralMetadata))
  }

  /** The string-typed descriptions of all columns, as a set. */
  function ColumnSet(d: Dataset): set<string>
  {
    ToSet(ColumnDescriptions(d.structuralMetadata))
  }

  /** `all_descriptions`: the joined table descriptions, then, when there
      are column descriptions, one space and the joined column descriptions. */
  function AllDescriptions(tableSet: set<string>, tableOrder: seq<string>,
                           columnSet: set<string>, columnOrder: seq<string>): string
    requires IsEnumeration(tableOrder, tableSet)
    requires IsEnumeration(columnOrder, columnSet)
  {
    var withTables := if |tableSet| > 0 then "" + Join(tableOrder) else "";
    if |columnSet| > 0 then withTables + " " + Join(columnOrder) else withTables
  }

  /** The pieces that `all_descriptions` joins: the table descriptions (or a
      single empty piece when there are none), then the column descriptions. */
  function DescriptionSegments(tableOrder: seq<string>, columnOrder: seq<string>): seq<string>
  {
    (if tableOrder == [] then [""] else tableOrder) + columnOrder
  }

  /** The four summary fields in the order they enter the document. */
  function SummaryFields(s: Summary): seq<string>
    requires s.abstractText.Some? && s.description.Some? && s.keywords.Some?
  {
    [s.title, s.abstractText.value, s.description.value, s.keywords.value]
  }

  /** `preprocess_dataset`: the summary fields and `all_descriptions`
      separated by single spaces. Concatenating a `None` field raises
      `TypeError`; the first such field in concatenation order is reported. */
  function PreprocessDataset(d: Dataset, tableOrder: seq<string>, columnOrder: seq<string>): (r: Result<string>)
    requires IsEnumeration(tableOrder, TableSet(d))
    requires IsEnumeration(columnOrder, ColumnSet(d))
    ensures r.Ok? <==>
      d.summary.abstractText.Some? && d.summary.description.Some? && d.summary.keywords.Some?
    ensures d.summary.abstractText.None? ==> r == Err(TypeError("abstract"))
    ensures d.summary.abstractText.Some? && d.summary.description.None? ==>
      r == Err(TypeError("description"))
    ensures d.summary.abstractText.Some? && d.summary.description.Some? && d.summary.keywords.None? ==>
      r == Err(TypeError("keywords"))
  {
    var s := d.summary;
    var all := AllDescriptions(TableSet(d), tableOrder, ColumnSet(d), columnOrder);
    if s.abstractText.None? then Err(TypeError("abstract"))
    else if s.description.None? then Err(TypeError("description"))
    else if s.keywords.None? then Err(TypeError("keywords"))
    else Ok(s.title + " " + s.abstractText.value + " " + s.description.value + " " + s.keywords.value + " " + all)
  }

  /** `all_descriptions` is the space-join of its segments: empty when
      there is no description at all, and starting with a space when there
      are column descriptions but no table descriptions. */
  lemma AllDescriptionsIsJoin(tableSet: set<string>, tableOrder: seq<string>,
                              columnSet: set<string>, columnOrder: seq<string>)
    requires IsEnumeration(tableOrder, tableSet)
    requires IsEnumeration(columnOrder, columnSet)
    ensures AllDescriptions(tableSet, tableOrder, columnSet, columnOrder)
      == Join(DescriptionSegments(tableOrder, columnOrder))
    ensures tableSet == {} && columnSet == {} ==>
      AllDescriptions(tableSet, tableOrder, columnSet, columnOrder) == ""
    ensures tableSet == {} && columnSet != {} ==>
      AllDescriptions(tableSet, tableOrder, columnSet, columnOrder) == " " + Join(columnOrder)
  {
    EnumerationCounts(tableOrder, tableSet);
    EnumerationCounts(columnOrder, columnSet);
    var segments := DescriptionSegments(tableOrder, columnOrder);
    if tableOrder == [] {
      if columnOrder != [] {
        assert segments == [""] + columnOrder;
        JoinAppend([""], columnOrder);
        assert "" + " " + Join(columnOrder) == " " + Join(columnOrder);
      } else {
        assert segments == [""];
      }
    } else {
      assert "" + Join(tableOrder) == Join(tableOrder);
      if columnOrder != [] {
        assert segments == tableOrder + columnOrder;
        JoinAppend(tableOrder, columnOrder);
      } else {
        assert segments == tableOrder;
      }
    }
  }

  /** The document is exactly title, abstract, description and keywords,
      then the table descriptions and the column descriptions, separated by
      single spaces, in that order. */
  lemma DocumentLayout(d: Dataset, tableOrder: seq<string>, columnOrder: seq<string>)
    requires IsEnumeration(tableOrder, TableSet(d))
    requires IsEnumeration(columnOrder, ColumnSet(d))
    requires PreprocessDataset(d, tableOrder, columnOrder).Ok?
    ensures PreprocessDataset(d, tableOrder, columnOrder).value
      == Join(SummaryFields(d.summary) + DescriptionSegments(tableOrder, columnOrder))
  {
    var s := d.summary;
    var segments := DescriptionSegments(tableOrder, columnOrder);
    var all := AllDescriptions(TableSet(d), tableOrder, ColumnSet(d), columnOrder);
    AllDescriptionsIsJoin(TableSet(d), tableOrder, ColumnSet(d), columnOrder);
    assert segments != [];
    JoinAppend(SummaryFields(s), segments);
    JoinFour(s.title, s.abstractText.value, s.description.value, s.keywords.value, all);
  }

  lemma JoinFour(a: string, b: string, c: string, d: string, rest: string)
    ensures Join([a, b, c, d]) + " " + rest == a + " " + b + " " + c + " " + d + " " + rest
  {
    var f := [a, b, c, d];
    assert f[1..] == [b, c, d];
    assert f[1..][1..] == [c, d];
    assert f[1..][1..][1..] == [d];
    assert Join([d]) == d;
    assert Join([c, d]) == c + " " + d;
    assert Join([b, c, d]) == b + " " + (c + " " + d);
    assert Join(f) == a + " " + (b + " " + (c + " " + d));
  }

  /** The table-description block names every string-typed table
      description exactly once and nothing else; likewise the column block
      for the string-typed descriptions of columns in all tables. */
  lemma DescriptionsOnce(d: Dataset, tableOrder: seq<string>, columnOrder: seq<string>)
    requires IsEnumeration(tableOrder, TableSet(d))
    requires IsEnumeration(columnOrder, ColumnSet(d))
    ensures forall x :: (multiset(tableOrder)[x] ==
      if (exists i :: 0 <= i < |d.structuralMetadata| && d.structuralMetadata[i].description == Some(x))
      then 1 else 0)
    ensures forall x :: (multiset(columnOrder)[x] ==
      if (exists i, j :: (0 <= i < |d.structuralMetadata| && 0 <= j < |d.structuralMetadata[i].elements| &&
        d.structuralMetadata[i].elements[j].description == Some(x)))
      then 1 else 0)
  {
    EnumerationCounts(tableOrder, TableSet(d));
    EnumerationCounts(columnOrder, ColumnSet(d));
  }

  /** When no field and no description contains a space, splitting the
      document on spaces gives back the fields and descriptions. */
  lemma DocumentWords(d: Dataset, tableOrder: seq<string>, columnOrder: seq<string>)
    requires IsEnumeration(tableOrder, TableSet(d))
    requires IsEnumeration(columnOrder, ColumnSet(d))
    requires PreprocessDataset(d, tableOrder, columnOrder).Ok?
    requires SpaceFree(d.summary.title) && SpaceFree(d.summary.abstractText.value)
    requires SpaceFree(d.summary.description.value) && SpaceFree(d.summary.keywords.value)
    requires forall x :: x in TableSet(d) ==> SpaceFree(x)
    requires forall x :: x in ColumnSet(d) ==> SpaceFree(x)
    ensures Split(PreprocessDataset(d, tableOrder, columnOrder).value)
      == SummaryFields(d.summary) + DescriptionSegments(tableOrder, columnOrder)
  {
    DocumentLayout(d, tableOrder, columnOrder);
    var parts := SummaryFields(d.summary) + DescriptionSegments(tableOrder, columnOrder);
    forall i | 0 <= i < |parts| ensures SpaceFree(parts[i]) {
      if i >= 4 {
        var seg := DescriptionSegments(tableOrder, columnOrder);
        assert parts[i] == seg[i - 4];
        assert seg[i - 4] == "" || seg[i - 4] in tableOrder || seg[i - 4] in columnOrder;
      }
    }
    SplitJoin(parts);
  }

  // ---------------------------------------------------------------------
  // The test fixture
  // ---------------------------------------------------------------------

  /** The dataset of the repository's test helpers: one table whose two
      columns share one description. */
  function TestDataset(): Dataset
  {
    var column := Element(Some("description of column"));
    Dataset(
      Summary("a test dataset",
              Some("a short description of the dataset"),
              Some("a longer description of the dataset"),
              Some("a,single,string,of,keywords")),
      [Table(Some("description of a dataset table"), [column, column])])
  }

  lemma TestTableSet()
    ensures TableSet(TestDataset()) == {"description of a dataset table"}
  {
    var d := TestDataset();
    assert TableDescriptions(d.structuralMetadata) == ["description of a dataset table"];
  }

  lemma TestColumnSet()
    ensures ColumnSet(TestDataset()) == {"description of column"}
  {
    var d := TestDataset();
    var elements := d.structuralMetadata[0].elements;
    assert ElementDescriptions(elements[1..]) == ["description of column"];
    assert ElementDescriptions(elements) == ["description of column", "description of column"];
    assert ColumnDescriptions(d.structuralMetadata[1..]) == [];
    assert ColumnDescriptions(d.structuralMetadata) == ["description of column", "description of column"];
  }

  /** For the fixture, whatever the set iteration order, the document holds
      the table description once and the shared column description once. */
  lemma TestDatasetDocument(tableOrder: seq<string>, columnOrder: seq<string>)
    requires IsEnumeration(tableOrder, TableSet(TestDataset()))
    requires IsEnumeration(columnOrder, ColumnSet(TestDataset()))
    ensures tableOrder == ["description of a dataset table"]
    ensures columnOrder == ["description of column"]
    ensures PreprocessDataset(TestDataset(), tableOrder, columnOrder) == Ok(Join([
      "a test dataset",
      "a short description of the dataset",
      "a longer description of the dataset",
      "a,single,string,of,keywords",
      "description of a dataset table",
      "description of column"]))
  {
    var d := TestDataset();
    TestTableSet();
    TestColumnSet();
    EnumerationOfSingleton(tableOrder, "description of a dataset table");
    EnumerationOfSingleton(columnOrder, "description of column");
    DocumentLayout(d, tableOrder, columnOrder);
    assert SummaryFields(d.summary) + DescriptionSegments(tableOrder, columnOrder) == [
      "a test dataset",
      "a short description of the dataset",
      "a longer description of the dataset",
      "a,single,string,of,keywords",
      "description of a dataset table",
      "description of column"];
  }
}
