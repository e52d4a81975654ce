/**
 * Creating the tables of a schema file that the database lacks
 * (SchemaCreator.create_missing_tables and _extract_table_name).
 */
module SchemaCreator {
  import opened Results
  import opened Text
  import opened DdlBlocks
  import opened TableParser
  import opened Database

  /** The characters the creator strips from a bare table name. */
  const CreatorTrim: set<char> := {' ', '(', ';'}

  /**
   * The table name of a CREATE TABLE statement: the header is the first line of the
   * stripped statement, itself stripped.
   */
  function ExtractTableName(statement: string): Option<string> {
    HeaderName(Strip(FirstLine(Strip(statement))), CreatorTrim)
  }

  /**
   * Joining a block's lines and taking the first line of the stripped text gives back
   * the header line, once stripped, whatever the lines after it hold.
   */
  lemma {:induction false} HeaderOfJoinedBlock(b: Block)
    requires b != [] && '\n' !in b[0] && Strip(b[0]) != ""
    ensures Strip(FirstLine(Strip(JoinLines(b)))) == Strip(b[0])
  {
    var rest := if |b| == 1 then "" else "\n" + JoinLines(b[1..]);
    assert JoinLines(b) == b[0] + rest;
    StripFirstLine(b[0], rest);
  }

  /** A block's stripped header is its first non-blank line. */
  lemma {:induction false} HeaderIsFirstNonBlank(b: Block)
    requires b != [] && Strip(b[0]) != ""
    ensures NonBlank(b) != [] && NonBlank(b)[0] == Strip(b[0])
  {
  }

  /**
   * For every block the splitter produces, the creator reads the same header as the
   * parser: when it has a backquote both find the same name; otherwise the creator also
   * strips semicolons.
   */
  lemma {:induction false} NamesAgree(b: Block)
    requires WellFormedBlock(b) && IsLine(b[0])
    ensures NonBlank(b) != []
    ensures ExtractTableName(JoinLines(b)) == HeaderName(NonBlank(b)[0], CreatorTrim)
    ensures '`' in NonBlank(b)[0] ==> ExtractTableName(JoinLines(b)) == HeaderName(NonBlank(b)[0], NameTrim)
  {
    assert '\n' in LineBreaks;
    assert |Upper(Strip(b[0]))| >= 12;
    HeaderIsFirstNonBlank(b);
    HeaderOfJoinedBlock(b);
  }

  /** The CREATE TABLE statements of a schema file, as MySQLSchemaParser.get_create_statements gives them. */
  function CreateStatements(lines: seq<Line>): (r: seq<string>)
    ensures |r| == |Blocks(lines)|
    ensures forall k :: 0 <= k < |r| ==> r[k] == JoinLines(Blocks(lines)[k])
  {
    seq(|Blocks(lines)|, k requires 0 <= k < |Blocks(lines)| => JoinLines(Blocks(lines)[k]))
  }

  /** The table name each CREATE TABLE statement of a schema file announces. */
  function AnnouncedNames(lines: seq<Line>): (r: seq<Option<string>>)
    ensures |r| == |Blocks(lines)|
    ensures forall k :: 0 <= k < |r| ==> r[k] == ExtractTableName(CreateStatements(lines)[k])
  {
    seq(|Blocks(lines)|, k requires 0 <= k < |Blocks(lines)| => ExtractTableName(CreateStatements(lines)[k]))
  }

  /** One of the first i announced names is `name`, and it is not empty. */
  predicate Announced(names: seq<Option<string>>, i: nat, name: string)
    requires i <= |names|
  {
    exists k :: 0 <= k < i && names[k] == Some(name) && name != ""
  }

  const AlreadyExists := "already_exists"
  const Created := "created"

  /** The label of a table whose CREATE TABLE statement failed. */
  function ErrorLabel(message: string): (r: string)
    ensures StartsWith(r, "error: ") && r != AlreadyExists && r != Created
  {
    var r := "error: " + message;
    assert r[0] == 'e' && AlreadyExists[0] == 'a' && Created[0] == 'c';
    r
  }

  /**
   * The labels agree with the database: a table is labelled already_exists exactly when
   * it existed at the start (`before`); every other label is created or an error; a table
   * labelled created exists and is empty; the tables that existed keep their rows, and
   * every table that came into being is labelled and empty.
   */
  predicate Labelled(results: map<string, string>, committed: map<string, set<int>>, before: map<string, set<int>>) {
    && (forall n :: n in results ==> (results[n] == AlreadyExists <==> n in before))
    && (forall n :: n in results ==>
          results[n] == AlreadyExists || results[n] == Created || StartsWith(results[n], "error: "))
    && (forall n :: n in results && results[n] == Created ==> n in committed && committed[n] == {})
    && (forall t :: t in before ==> t in committed && committed[t] == before[t])
    && (forall t :: t in committed && t !in before ==> t in results && committed[t] == {})
  }

  /**
   * Replays the CREATE TABLE statements of a schema file for the tables the database
   * lacked when the run began, giving each announced table one label.
   */
  method CreateMissingTables(db: Server, lines: seq<Line>) returns (results: map<string, string>)
    requires db.Valid() && db.pending == db.committed
    modifies db
    ensures db.Valid() && db.pending == db.committed
    ensures forall n :: n in results <==> Announced(AnnouncedNames(lines), |Blocks(lines)|, n)
    ensures Labelled(results, db.committed, old(db.committed))
  {
    var existing := db.committed.Keys;
    var blocks := SplitCreateTableBlocks(lines);
    ghost var names := AnnouncedNames(lines);
    results := map[];
    var i := 0;
    while i < |blocks|
      invariant 0 <= i <= |blocks| == |names|
      invariant db.Valid() && db.pending == db.committed
      invariant forall n :: n in results <==> Announced(names, i, n)
      invariant Labelled(results, db.committed, old(db.committed))
    {
      var statement := JoinLines(blocks[i]);
      var name := ExtractTableName(statement);
      ghost var before := results;
      if Truthy(name) {
        results := LabelTable(db, existing, old(db.committed), name.value, statement, results);
      }
      AnnouncedStep(names, i, before, results);
      i := i + 1;
    }
  }

  lemma {:induction false} AnnouncedStep(names: seq<Option<string>>, i: nat, results: map<string, string>, results': map<string, string>)
    requires i < |names|
    requires forall n :: n in results <==> Announced(names, i, n)
    requires Truthy(names[i]) ==> results'.Keys == results.Keys + {names[i].value}
    requires !Truthy(names[i]) ==> results'.Keys == results.Keys
    ensures forall n :: n in results' <==> Announced(names, i + 1, n)
  {
    forall m | Announced(names, i + 1, m) ensures m in results' {
      var k :| 0 <= k < i + 1 && names[k] == Some(m) && m != "";
      if k < i {
        assert Announced(names, i, m);
      }
    }
    forall m | m in results' ensures Announced(names, i + 1, m) {
      if Truthy(names[i]) && m == names[i].value {
        assert names[i] == Some(m);
      } else {
        var k :| 0 <= k < i && names[k] == Some(m) && m != "";
      }
    }
  }

  /** One statement's turn: label the table it announces, creating it when it did not exist. */
  method LabelTable(db: Server, existing: set<string>, ghost before: map<string, set<int>>, name: string,
                    statement: string, results: map<string, string>)
    returns (results': map<string, string>)
    requires db.Valid() && db.pending == db.committed && existing == before.Keys
    requires Labelled(results, db.committed, before)
    modifies db
    ensures db.Valid() && db.pending == db.committed
    ensures results'.Keys == results.Keys + {name}
    ensures Labelled(results', db.committed, before)
  {
    if name in existing {
      results' := results[name := AlreadyExists];
      LabelledKeep(results, db.committed, before, name, AlreadyExists);
    } else {
      ghost var committed := db.committed;
      var r := db.CreateTable(name, statement);
      if r.Ok? {
        db.Commit();
        results' := results[name := Created];
        LabelledCreate(results, committed, before, name);
      } else {
        results' := results[name := ErrorLabel(r.error)];
        LabelledKeep(results, committed, before, name, ErrorLabel(r.error));
        db.Rollback();
      }
    }
  }

  /** Labelling a table already_exists, or with an error, leaves the database as it was. */
  lemma {:induction false} LabelledKeep(results: map<string, string>, committed: map<string, set<int>>,
                                        before: map<string, set<int>>, name: string, tag: string)
    requires Labelled(results, committed, before)
    requires tag == AlreadyExists <==> name in before
    requires tag == AlreadyExists || StartsWith(tag, "error: ")
    requires tag != Created
    ensures Labelled(results[name := tag], committed, before)
  {
  }

  /** A table created under its label: it now exists and is empty. */
  lemma {:induction false} LabelledCreate(results: map<string, string>, committed: map<string, set<int>>,
                                          before: map<string, set<int>>, name: string)
    requires Labelled(results, committed, before)
    requires name !in before && name !in committed
    ensures Labelled(results[name := Created], committed[name := {}], before)
  {
  }
}
