/**
 * Reading one CREATE TABLE block into a table description, and a whole schema file into
 * a map from table name to table (MySQLSchemaParser._parse_table_block and parse).
 */
module TableParser {
  import opened Results
  import opened Text
  import opened DdlBlocks

  datatype Column = Column(name: string, sqlType: string, isPrimary: bool, isNullable: bool, hasDefault: bool)

  datatype Table = Table(name: string, columns: seq<Column>, primaryKey: Option<string>)

  type Schema = map<string, Table>

  /** Python's truth value of an optional string: present and not empty. */
  predicate Truthy(o: Option<string>) {
    o.Some? && o.value != ""
  }

  /** The stripped lines of a block that are not blank, in order. */
  function NonBlank(block: seq<Line>): (r: seq<Line>)
    ensures |r| <= |block|
    ensures forall k :: 0 <= k < |r| ==> r[k] != ""
  {
    if block == [] then []
    else (if Strip(block[0]) == "" then [] else [Strip(block[0])]) + NonBlank(block[1..])
  }

  /**
   * The table name a header line announces: the text after its first backquote when it
   * has one, and otherwise its third word with the characters of `trim` stripped.
   */
  function HeaderName(first: string, trim: set<char>): Option<string> {
    if '`' in first then Some(Quoted(first))
    else
      var parts := Words(first);
      if |parts| >= 3 then Some(StripBy(parts[2], trim)) else None
  }

  /**
   * The two forms of a header: with a backquote, the name is the text between the first
   * backquote and the next one (or the end of the line); without one, there is a name
   * exactly when the line has three words, and it is the third word with the characters
   * of `trim` cut from both ends.
   */
  lemma {:induction false} HeaderNameForms(first: string, trim: set<char>)
    ensures var r := HeaderName(first, trim);
      '`' in first ==> (r.Some? &&
        var i := IndexOf(first, '`');
        i + 1 + |r.value| <= |first| && r.value == first[i + 1..i + 1 + |r.value|] && '`' !in r.value &&
        (i + 1 + |r.value| == |first| || first[i + 1 + |r.value|] == '`'))
    ensures var r := HeaderName(first, trim);
      '`' !in first ==> (r.Some? <==> |Words(first)| >= 3)
    ensures var r := HeaderName(first, trim);
      '`' !in first && r.Some? ==>
        var w := Words(first)[2];
        var i := LeadIn(w, trim);
        i + |r.value| <= |w| && r.value == w[i..i + |r.value|] &&
        (forall k :: 0 <= k < |w| && !(i <= k < i + |r.value|) ==> w[k] in trim) &&
        (r.value == [] || (r.value[0] !in trim && r.value[|r.value| - 1] !in trim))
  {
    if '`' !in first && |Words(first)| >= 3 {
      StripByFacts(Words(first)[2], trim);
    }
  }

  /** The characters the parser strips from a bare table name. */
  const NameTrim: set<char> := {' ', '('}

  predicate ClosesBody(l: Line) {
    StartsWith(l, ")")
  }

  /** A PRIMARY KEY constraint line. */
  predicate IsKeyLine(l: Line) {
    StartsWith(Upper(l), "PRIMARY KEY")
  }

  /** A line that becomes a column: it starts with a backquote and has at least two words. */
  predicate IsColumnLine(l: Line) {
    StartsWith(l, "`") && |Words(l)| >= 2
  }

  /** The inline primary-key marker of a column line. */
  predicate Inline(l: Line) {
    Contains(Upper(l), "PRIMARY KEY")
  }

  /** A constraint line naming `name` as the key, between backquotes. */
  predicate NamesKey(l: Line, name: string) {
    IsKeyLine(l) && '`' in l && Quoted(l) == name
  }

  /** The column name of a line: its first word without surrounding backquotes and commas. */
  function ColName(l: Line): string
    requires |Words(l)| >= 1
  {
    StripBy(StripBy(Words(l)[0], {'`', ','}), {'`'})
  }

  /** The column a column line declares, before any later constraint marks it. */
  function ColumnOf(l: Line): (c: Column)
    requires IsColumnLine(l)
    ensures c.name == ColName(l) && c.sqlType == Words(l)[1]
    ensures c.isPrimary <==> Inline(l)
    ensures c.isNullable <==> !Contains(Upper(l), "NOT NULL")
    ensures c.hasDefault <==> Contains(Upper(l), "DEFAULT")
  {
    var u := Upper(l);
    Column(ColName(l), Words(l)[1], Contains(u, "PRIMARY KEY"), !Contains(u, "NOT NULL"), Contains(u, "DEFAULT"))
  }

  /** A constraint line is never a column line: it starts with P or p, not with a backquote. */
  lemma {:induction false} KeyLineIsNotColumnLine(l: Line)
    requires IsKeyLine(l)
    ensures !IsColumnLine(l)
  {
    assert Upper(l)[0] == "PRIMARY KEY"[0] == 'P';
    assert Upper(l)[0] == UpperChar(l[0]);
  }

  /** What a body line means to the parser. */
  datatype LineKind =
    | Constraint(key: Option<string>)  // a PRIMARY KEY line, with its back-quoted name if it has one
    | Declares(col: Column)            // a column line
    | Ignored

  function Classify(l: Line): (k: LineKind)
    ensures k.Constraint? <==> IsKeyLine(l)
    ensures k.Constraint? ==> (k.key.Some? <==> '`' in l) && (k.key.Some? ==> k.key.value == Quoted(l))
    ensures k.Declares? <==> IsColumnLine(l)
    ensures k.Declares? ==> k.col == ColumnOf(l)
  {
    if IsKeyLine(l) then
      KeyLineIsNotColumnLine(l);
      Constraint(if '`' in l then Some(Quoted(l)) else None)
    else if IsColumnLine(l) then Declares(ColumnOf(l))
    else Ignored
  }

  /** What the parser has built after some body lines: the columns and the key. */
  datatype BodyState = BodyState(columns: seq<Column>, primaryKey: Option<string>)

  /** The columns with every column called `name` marked primary. */
  function MarkPrimary(cols: seq<Column>, name: string): (r: seq<Column>)
    ensures |r| == |cols|
    ensures forall k :: 0 <= k < |r| ==> r[k] == (if cols[k].name == name then cols[k].(isPrimary := true) else cols[k])
  {
    seq(|cols|, k requires 0 <= k < |cols| => if cols[k].name == name then cols[k].(isPrimary := true) else cols[k])
  }

  /**
   * The effect of one body line: a named constraint sets the key and marks the columns of
   * that name; a column is appended, and its inline marker sets the key only while unset.
   */
  function Step(st: BodyState, k: LineKind): BodyState {
    match k
    case Constraint(None) => st
    case Constraint(Some(q)) => BodyState(MarkPrimary(st.columns, q), Some(q))
    case Declares(c) =>
      BodyState(st.columns + [c], if c.isPrimary && !Truthy(st.primaryKey) then Some(c.name) else st.primaryKey)
    case Ignored => st
  }

  /** The state after body lines of kinds `ks`, read from first to last. */
  function Scan(ks: seq<LineKind>): BodyState
    decreases |ks|
  {
    if ks == [] then BodyState([], None) else Step(Scan(ks[..|ks| - 1]), ks[|ks| - 1])
  }

  function Kinds(ls: seq<Line>): (r: seq<LineKind>)
    ensures |r| == |ls| && forall j :: 0 <= j < |ls| ==> r[j] == Classify(ls[j])
  {
    seq(|ls|, j requires 0 <= j < |ls| => Classify(ls[j]))
  }

  /** The state after the body lines `ls`. */
  function ScanBody(ls: seq<Line>): BodyState {
    Scan(Kinds(ls))
  }

  /** The index of the first line that closes the body, or |ls| when none does. */
  function CloseAt(ls: seq<Line>): (n: nat)
    ensures n <= |ls|
    ensures forall k :: 0 <= k < n ==> !ClosesBody(ls[k])
    ensures n < |ls| ==> ClosesBody(ls[n])
  {
    if ls == [] || ClosesBody(ls[0]) then 0 else 1 + CloseAt(ls[1..])
  }

  /** The body of a block given as its non-blank lines: the lines after the header, up to the closing one. */
  function Body(lines: seq<Line>): seq<Line>
    requires lines != []
  {
    lines[1..][..CloseAt(lines[1..])]
  }

  /** The table a block describes, or None when it has no lines or no usable name. */
  function ParseBlock(block: seq<Line>): (r: Option<Table>)
    ensures r.Some? <==> NonBlank(block) != [] && Truthy(HeaderName(NonBlank(block)[0], NameTrim))
    ensures r.Some? ==> r.value.name == HeaderName(NonBlank(block)[0], NameTrim).value
  {
    var lines := NonBlank(block);
    if lines == [] then None
    else
      var name := HeaderName(lines[0], NameTrim);
      if !Truthy(name) then None
      else
        var st := ScanBody(Body(lines));
        Some(Table(name.value, st.columns, st.primaryKey))
  }

  /** The parser of one block: a loop over its lines that appends columns and marks keys in place. */
  method ParseTableBlock(block: seq<Line>) returns (t: Option<Table>)
    ensures t == ParseBlock(block)
  {
    var lines := NonBlank(block);
    if lines == [] {
      return None;
    }
    var name := HeaderName(lines[0], NameTrim);
    if !Truthy(name) {
      return None;
    }
    var st := ReadBody(lines);
    t := Some(Table(name.value, st.columns, st.primaryKey));
  }

  /** The parser's loop over the lines after the header, up to the one that closes the body. */
  method ReadBody(lines: seq<Line>) returns (st: BodyState)
    requires lines != []
    ensures st == ScanBody(Body(lines))
  {
    var columns: seq<Column> := [];
    var primaryKey: Option<string> := None;
    var i := 1;
    while i < |lines|
      invariant 1 <= i <= |lines|
      invariant forall k :: 1 <= k < i ==> !ClosesBody(lines[k])
      invariant BodyState(columns, primaryKey) == ScanBody(lines[1..i])
    {
      if ClosesBody(lines[i]) {
        break;
      }
      columns, primaryKey := ReadBodyLine(columns, primaryKey, lines[i]);
      ScanBodyStep(lines, i);
      i := i + 1;
    }
    assert lines[1..i] == Body(lines) by {
      CloseAtIs(lines[1..], i - 1);
    }
    st := BodyState(columns, primaryKey);
  }

  lemma {:induction false} ScanBodyStep(lines: seq<Line>, i: nat)
    requires 1 <= i < |lines|
    ensures ScanBody(lines[1..i + 1]) == Step(ScanBody(lines[1..i]), Classify(lines[i]))
  {
    assert Kinds(lines[1..i + 1])[..i - 1] == Kinds(lines[1..i]);
  }

  /** One turn of the parser's loop over a body line that does not close the body. */
  method ReadBodyLine(columns: seq<Column>, primaryKey: Option<string>, line: Line)
    returns (columns': seq<Column>, primaryKey': Option<string>)
    ensures BodyState(columns', primaryKey') == Step(BodyState(columns, primaryKey), Classify(line))
  {
    columns', primaryKey' := columns, primaryKey;
    if IsKeyLine(line) {
      if '`' in line {
        var pkName := Quoted(line);
        primaryKey' := Some(pkName);
        columns' := MarkColumns(columns', pkName);
      }
    } else if StartsWith(line, "`") {
      var parts := Words(line);
      if |parts| >= 2 {
        var colName := StripBy(StripBy(parts[0], {'`', ','}), {'`'});
        var upperLine := Upper(line);
        var isPrimary := Contains(upperLine, "PRIMARY KEY");
        columns' := columns' + [Column(colName, parts[1], isPrimary, !Contains(upperLine, "NOT NULL"), Contains(upperLine, "DEFAULT"))];
        if isPrimary && !Truthy(primaryKey') {
          primaryKey' := Some(colName);
        }
      }
    }
  }

  /** A body that stops at index n stops there. */
  lemma {:induction false} CloseAtIs(ls: seq<Line>, n: nat)
    requires n <= |ls|
    requires forall k :: 0 <= k < n ==> !ClosesBody(ls[k])
    requires n < |ls| ==> ClosesBody(ls[n])
    ensures CloseAt(ls) == n
  {
  }

  /** The loop over the columns that flips is_primary on every column of the given name. */
  method MarkColumns(cols: seq<Column>, name: string) returns (r: seq<Column>)
    ensures r == MarkPrimary(cols, name)
  {
    r := cols;
    var j := 0;
    while j < |r|
      invariant 0 <= j <= |r| == |cols|
      invariant forall k :: 0 <= k < j ==> r[k] == MarkPrimary(cols, name)[k]
      invariant forall k :: j <= k < |r| ==> r[k] == cols[k]
    {
      if r[j].name == name {
        r := r[j := r[j].(isPrimary := true)];
      }
      j := j + 1;
    }
  }

  /** The indices of the column lines among the kinds `ks`, in order. */
  function ColumnPositions(ks: seq<LineKind>): (r: seq<nat>)
    ensures forall k :: 0 <= k < |r| ==> r[k] < |ks| && ks[r[k]].Declares?
    ensures forall a, b :: 0 <= a < b < |r| ==> r[a] < r[b]
    ensures forall j :: 0 <= j < |ks| && ks[j].Declares? ==> j in r
    decreases |ks|
  {
    if ks == [] then []
    else ColumnPositions(ks[..|ks| - 1]) + (if ks[|ks| - 1].Declares? then [|ks| - 1] else [])
  }

  /** Some constraint line after index p names `name` as the key. */
  predicate MarkedLater(ks: seq<LineKind>, p: nat, name: string) {
    exists j :: p < j < |ks| && ks[j] == Constraint(Some(name))
  }

  /** The column the line at p declares, as it stands at the end of the body. */
  function Final(ks: seq<LineKind>, p: nat): Column
    requires p < |ks| && ks[p].Declares?
  {
    var d := ks[p].col;
    d.(isPrimary := d.isPrimary || MarkedLater(ks, p, d.name))
  }

  lemma {:induction false} MarkedLaterSnoc(init: seq<LineKind>, k: LineKind, p: nat, name: string)
    requires p < |init|
    ensures MarkedLater(init + [k], p, name) <==> MarkedLater(init, p, name) || k == Constraint(Some(name))
  {
    var ks := init + [k];
    if k == Constraint(Some(name)) {
      assert ks[|init|] == k;
    }
    if MarkedLater(init, p, name) {
      var j :| p < j < |init| && init[j] == Constraint(Some(name));
      assert ks[j] == init[j];
    }
    if MarkedLater(ks, p, name) && k != Constraint(Some(name)) {
      var j :| p < j < |ks| && ks[j] == Constraint(Some(name));
      assert init[j] == ks[j];
    }
  }

  /**
   * The columns read from body lines are exactly those the column lines declare, in
   * order, each marked primary when its own line has the inline marker or a later
   * constraint line names it.
   */
  lemma {:induction false} ColumnsOfBody(ks: seq<LineKind>)
    ensures |Scan(ks).columns| == |ColumnPositions(ks)|
    ensures forall k :: 0 <= k < |ColumnPositions(ks)| ==> Scan(ks).columns[k] == Final(ks, ColumnPositions(ks)[k])
    decreases |ks|
  {
    if ks != [] {
      var init := ks[..|ks| - 1];
      var last := ks[|ks| - 1];
      assert ks == init + [last];
      ColumnsOfBody(init);
      var ps := ColumnPositions(init);
      var cols := Scan(ks).columns;
      forall k | 0 <= k < |ps| ensures cols[k] == Final(ks, ColumnPositions(ks)[k]) {
        var p := ps[k];
        assert ColumnPositions(ks)[k] == p && ks[p] == init[p];
        MarkedLaterSnoc(init, last, p, init[p].col.name);
      }
      if last.Declares? {
        assert ColumnPositions(ks)[|ps|] == |ks| - 1;
        assert !MarkedLater(ks, |ks| - 1, last.col.name);
      }
    }
  }

  /** A line that can set the key: a named constraint, or a column with the inline marker. */
  predicate SetsKey(k: LineKind) {
    (k.Constraint? && k.key.Some?) || (k.Declares? && k.col.isPrimary)
  }

  /**
   * The key is unset exactly when no line could set it, and when set it comes from a
   * named constraint or from an inline-marked column.
   */
  lemma {:induction false} PrimaryKeyOrigin(ks: seq<LineKind>)
    ensures Scan(ks).primaryKey.None? <==> forall j :: 0 <= j < |ks| ==> !SetsKey(ks[j])
    ensures Scan(ks).primaryKey.Some? ==>
      exists j :: 0 <= j < |ks| && (ks[j] == Constraint(Scan(ks).primaryKey) ||
        (ks[j].Declares? && ks[j].col.isPrimary && ks[j].col.name == Scan(ks).primaryKey.value))
    decreases |ks|
  {
    if ks != [] {
      var init := ks[..|ks| - 1];
      PrimaryKeyOrigin(init);
      assert forall j :: 0 <= j < |init| ==> ks[j] == init[j];
      var last := ks[|ks| - 1];
      if Scan(ks).primaryKey != Scan(init).primaryKey {
        assert SetsKey(last);
      }
    }
  }

  /** The last named constraint decides the key, whatever columns come after it. */
  lemma {:induction false} LastConstraintWins(ks: seq<LineKind>, j: nat)
    requires j < |ks| && ks[j].Constraint? && ks[j].key.Some? && ks[j].key.value != ""
    requires forall i :: j < i < |ks| ==> !(ks[i].Constraint? && ks[i].key.Some?)
    ensures Scan(ks).primaryKey == ks[j].key
    decreases |ks|
  {
    if j < |ks| - 1 {
      var init := ks[..|ks| - 1];
      assert forall i :: 0 <= i < |init| ==> ks[i] == init[i];
      LastConstraintWins(init, j);
    }
  }

  /**
   * With no named constraint, the first inline-marked column decides the key when its
   * name is not empty: later inline markers set the key only while it is unset.
   */
  lemma {:induction false} FirstInlineKeyWins(ks: seq<LineKind>, j: nat)
    requires j < |ks| && ks[j].Declares? && ks[j].col.isPrimary && ks[j].col.name != ""
    requires forall i :: 0 <= i < j ==> !SetsKey(ks[i])
    requires forall i :: 0 <= i < |ks| ==> !(ks[i].Constraint? && ks[i].key.Some?)
    ensures Scan(ks).primaryKey == Some(ks[j].col.name)
    decreases |ks|
  {
    var init := ks[..|ks| - 1];
    assert forall i :: 0 <= i < |init| ==> ks[i] == init[i];
    if j == |ks| - 1 {
      PrimaryKeyOrigin(init);
    } else {
      FirstInlineKeyWins(init, j);
    }
  }

  /** The key a constraint names need not be a declared column: a lone constraint line sets it. */
  lemma {:induction false} KeyNeedNotBeDeclared(q: string)
    ensures Scan([Constraint(Some(q))]) == BodyState([], Some(q))
  {
    assert [Constraint(Some(q))][..0] == [];
  }

  /** A table can have several primary columns: every inline-marked column is one. */
  lemma {:induction false} TwoPrimaryColumns(a: Column, b: Column)
    requires a.isPrimary && b.isPrimary
    ensures Scan([Declares(a), Declares(b)]).columns == [a, b]
  {
    assert [Declares(a), Declares(b)][..1] == [Declares(a)];
    assert [Declares(a)][..0] == [];
    assert Scan([Declares(a)]).columns == [a];
    assert [a] + [b] == [a, b];
  }

  /** The tables parsed from several blocks, in order, None where a block yields none. */
  function Parsed(bs: seq<Block>): (r: seq<Option<Table>>)
    ensures |r| == |bs| && forall k :: 0 <= k < |bs| ==> r[k] == ParseBlock(bs[k])
  {
    seq(|bs|, k requires 0 <= k < |bs| => ParseBlock(bs[k]))
  }

  /** Parsed tables gathered by name, a later one replacing an earlier one. */
  function Collect(ts: seq<Option<Table>>): (s: Schema)
    ensures forall n :: n in s ==> s[n].name == n
    decreases |ts|
  {
    if ts == [] then map[]
    else
      var s := Collect(ts[..|ts| - 1]);
      var t := ts[|ts| - 1];
      if t.None? then s else s[t.value.name := t.value]
  }

  /** The schema of a file's blocks. */
  function SchemaOf(bs: seq<Block>): Schema {
    Collect(Parsed(bs))
  }

  /** The parsed table t is called `name`. */
  predicate Names(t: Option<Table>, name: string) {
    t.Some? && t.value.name == name
  }

  /** A name is in the schema exactly when some block yields a table of that name, and the last such block wins. */
  lemma {:induction false} SchemaLastWins(ts: seq<Option<Table>>, name: string)
    ensures name in Collect(ts) <==> exists k :: 0 <= k < |ts| && Names(ts[k], name)
    ensures name in Collect(ts) ==> exists k :: (0 <= k < |ts| && Names(ts[k], name) &&
      Collect(ts)[name] == ts[k].value &&
      forall k' :: k < k' < |ts| ==> !Names(ts[k'], name))
    decreases |ts|
  {
    if ts == [] {
      assert Collect(ts) == map[];
    } else {
      var n := |ts| - 1;
      var init, last := ts[..n], ts[n];
      SchemaLastWins(init, name);
      if Names(last, name) {
        assert Collect(ts) == Collect(init)[name := last.value];
      } else {
        assert name in Collect(ts) <==> name in Collect(init);
        if name in Collect(init) {
          assert Collect(ts)[name] == Collect(init)[name];
          var k :| 0 <= k < |init| && Names(init[k], name) && Collect(init)[name] == init[k].value &&
            forall k' :: k < k' < |init| ==> !Names(init[k'], name);
          assert ts[k] == init[k];
          forall k' | k < k' < |ts| ensures !Names(ts[k'], name) {
            if k' < n {
              assert ts[k'] == init[k'];
            }
          }
        }
        if exists k :: 0 <= k < |ts| && Names(ts[k], name) {
          var k :| 0 <= k < |ts| && Names(ts[k], name);
          assert init[k] == ts[k];
        }
        if exists k :: 0 <= k < |init| && Names(init[k], name) {
          var k :| 0 <= k < |init| && Names(init[k], name);
          assert ts[k] == init[k];
        }
      }
    }
  }

  /** MySQLSchemaParser.parse on the lines of a schema file. */
  method Parse(lines: seq<Line>) returns (schema: Schema)
    ensures schema == SchemaOf(Blocks(lines))
  {
    var blocks := SplitCreateTableBlocks(lines);
    ghost var ts := Parsed(blocks);
    schema := map[];
    var i := 0;
    while i < |blocks|
      invariant 0 <= i <= |blocks|
      invariant schema == Collect(ts[..i])
    {
      var t := ParseTableBlock(blocks[i]);
      assert ts[..i + 1][..i] == ts[..i];
      if t.Some? {
        schema := schema[t.value.name := t.value];
      }
      i := i + 1;
    }
    assert ts[..i] == ts;
  }
}
