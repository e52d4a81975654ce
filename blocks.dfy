/**
 * Cutting a schema file into CREATE TABLE blocks (MySQLSchemaParser._split_create_table_blocks).
 * The file is given as its lines, as str.splitlines() yields them; a block is kept as its
 * list of lines, and its text is JoinLines of that list.
 *
 * The grouping is defined, and its properties proved, for any pair of line tests `opens`
 * (the line starts a block) and `closes` (the line ends the statement); the file is cut
 * with IsCreateLine and EndsStatement.
 */
module DdlBlocks {
  import opened Text

  type Block = seq<Line>

  /** A line that opens a block: its stripped, upper-cased form starts with CREATE TABLE. */
  predicate IsCreateLine(l: Line) {
    StartsWith(Upper(Strip(l)), "CREATE TABLE")
  }

  /** A line that closes a block: its stripped form ends with a semicolon. */
  predicate EndsStatement(l: Line) {
    EndsWith(Strip(l), ";")
  }

  /**
   * How many of the lines after a block's header still belong to the block: every line
   * up to and including the first one that closes the statement, but none from the next
   * line that opens a block on.
   */
  function OpenRun(rest: seq<Line>, opens: Line -> bool, closes: Line -> bool): (n: nat)
    ensures n <= |rest|
    ensures forall k :: 0 <= k < n ==> !opens(rest[k])
    ensures forall k :: 0 <= k < n - 1 ==> !closes(rest[k])
    ensures n == |rest| || opens(rest[n]) || (0 < n && closes(rest[n - 1]))
  {
    if rest == [] || opens(rest[0]) then 0
    else if closes(rest[0]) then 1
    else 1 + OpenRun(rest[1..], opens, closes)
  }

  /** The length of the block whose header is lines[0]. */
  function BlockLength(lines: seq<Line>, opens: Line -> bool, closes: Line -> bool): (n: nat)
    requires lines != []
    ensures 1 <= n <= |lines|
  {
    if closes(lines[0]) then 1 else 1 + OpenRun(lines[1..], opens, closes)
  }

  /**
   * The blocks of a file, defined declaratively: lines before an opening line are
   * dropped; an opening line starts a block that runs for BlockLength lines.
   */
  function BlocksBy(lines: seq<Line>, opens: Line -> bool, closes: Line -> bool): seq<Block>
    decreases |lines|
  {
    if lines == [] then []
    else if !opens(lines[0]) then BlocksBy(lines[1..], opens, closes)
    else
      var n := BlockLength(lines, opens, closes);
      [lines[..n]] + BlocksBy(lines[n..], opens, closes)
  }

  /** The CREATE TABLE blocks of a schema file. */
  function Blocks(lines: seq<Line>): seq<Block> {
    BlocksBy(lines, IsCreateLine, EndsStatement)
  }

  /** The blocks still to come when the lines `rest` are unread and `current` is the open block. */
  function Pending(rest: seq<Line>, current: Block, opens: Line -> bool, closes: Line -> bool): seq<Block> {
    if current == [] then BlocksBy(rest, opens, closes)
    else
      var n := OpenRun(rest, opens, closes);
      [current + rest[..n]] + BlocksBy(rest[n..], opens, closes)
  }

  lemma {:induction false} PendingAtCreateLine(rest: seq<Line>, current: Block, opens: Line -> bool, closes: Line -> bool)
    requires rest != [] && opens(rest[0]) && current != []
    ensures Pending(rest, current, opens, closes) == [current] + Pending(rest, [], opens, closes)
  {
    assert current + rest[..0] == current;
    assert rest[0..] == rest;
  }

  lemma {:induction false} BlocksAtCreateLine(rest: seq<Line>, opens: Line -> bool, closes: Line -> bool)
    requires rest != [] && opens(rest[0])
    ensures closes(rest[0]) ==> BlocksBy(rest, opens, closes) == [[rest[0]]] + Pending(rest[1..], [], opens, closes)
    ensures !closes(rest[0]) ==> BlocksBy(rest, opens, closes) == Pending(rest[1..], [rest[0]], opens, closes)
  {
    if closes(rest[0]) {
      assert rest[..1] == [rest[0]];
    } else {
      var n := OpenRun(rest[1..], opens, closes);
      assert rest[..1 + n] == [rest[0]] + rest[1..][..n];
      assert rest[1 + n..] == rest[1..][n..];
    }
  }

  lemma {:induction false} PendingAtBodyLine(rest: seq<Line>, current: Block, opens: Line -> bool, closes: Line -> bool)
    requires rest != [] && !opens(rest[0]) && current != []
    ensures closes(rest[0]) ==>
      Pending(rest, current, opens, closes) == [current + [rest[0]]] + Pending(rest[1..], [], opens, closes)
    ensures !closes(rest[0]) ==>
      Pending(rest, current, opens, closes) == Pending(rest[1..], current + [rest[0]], opens, closes)
  {
    if closes(rest[0]) {
      assert OpenRun(rest, opens, closes) == 1;
      assert rest[..1] == [rest[0]];
    } else {
      var n := OpenRun(rest[1..], opens, closes);
      assert OpenRun(rest, opens, closes) == 1 + n;
      assert current + rest[..1 + n] == current + [rest[0]] + rest[1..][..n];
      assert rest[1 + n..] == rest[1..][n..];
    }
  }

  /**
   * One turn of the scanner's loop: the blocks the line completes, and the new open block
   * and in-block flag.
   */
  method ScanLine(line: Line, current: Block, inCreate: bool, ghost rest: seq<Line>)
    returns (emitted: seq<Block>, current': Block, inCreate': bool)
    requires rest != [] && rest[0] == line
    requires inCreate <==> current != []
    ensures inCreate' <==> current' != []
    ensures emitted + Pending(rest[1..], current', IsCreateLine, EndsStatement) ==
      Pending(rest, current, IsCreateLine, EndsStatement)
  {
    ghost var opens, closes := IsCreateLine, EndsStatement;
    var create := IsCreateLine(line);
    var ends := EndsStatement(line);
    assert create == opens(rest[0]) && ends == closes(rest[0]);
    emitted, current', inCreate' := [], current, inCreate;
    if create {
      if current' != [] {
        PendingAtCreateLine(rest, current', opens, closes);
        emitted := [current'];
        current' := [];
      }
      assert emitted + BlocksBy(rest, opens, closes) == Pending(rest, current, opens, closes);
      inCreate' := true;
      BlocksAtCreateLine(rest, opens, closes);
      current' := [line];
      if ends {
        emitted := emitted + [current'];
        current' := [];
        inCreate' := false;
      }
    } else if current' != [] {
      PendingAtBodyLine(rest, current', opens, closes);
      current' := current' + [line];
      if ends {
        emitted := emitted + [current'];
        current' := [];
        inCreate' := false;
      }
    }
  }

  lemma {:induction false} Regroup(blocks: seq<Block>, emitted: seq<Block>, after: seq<Block>, before: seq<Block>, whole: seq<Block>)
    requires blocks + before == whole && emitted + after == before
    ensures (blocks + emitted) + after == whole
  {
  }

  /** The line scanner of the source: a list being filled and an in-block flag. */
  method SplitCreateTableBlocks(lines: seq<Line>) returns (blocks: seq<Block>)
    ensures blocks == Blocks(lines)
  {
    ghost var opens, closes := IsCreateLine, EndsStatement;
    blocks := [];
    var current: Block := [];
    var inCreate := false;
    var i := 0;
    assert lines[0..] == lines;
    while i < |lines|
      invariant 0 <= i <= |lines|
      invariant inCreate <==> current != []
      invariant blocks + Pending(lines[i..], current, opens, closes) == Blocks(lines)
    {
      ghost var before := Pending(lines[i..], current, opens, closes);
      var emitted;
      emitted, current, inCreate := ScanLine(lines[i], current, inCreate, lines[i..]);
      assert lines[i..][1..] == lines[i + 1..];
      Regroup(blocks, emitted, Pending(lines[i + 1..], current, opens, closes), before, Blocks(lines));
      blocks := blocks + emitted;
      i := i + 1;
    }
    assert Pending(lines[i..], current, opens, closes) == if current == [] then [] else [current] by {
      assert lines[i..] == [];
      assert current + [][..0] == current;
    }
    if current != [] {
      blocks := blocks + [current];
    }
  }

  /** The block starts with an opening line, holds no other one, and only its last line may close it. */
  predicate WellFormedBy(b: Block, opens: Line -> bool, closes: Line -> bool) {
    && b != []
    && opens(b[0])
    && (forall j :: 0 < j < |b| ==> !opens(b[j]))
    && (forall j :: 0 <= j < |b| - 1 ==> !closes(b[j]))
  }

  /** A CREATE TABLE block as the splitter returns it. */
  predicate WellFormedBlock(b: Block) {
    WellFormedBy(b, IsCreateLine, EndsStatement)
  }

  lemma {:induction false} BlocksAreWellFormed(lines: seq<Line>, opens: Line -> bool, closes: Line -> bool)
    ensures forall i :: 0 <= i < |BlocksBy(lines, opens, closes)| ==>
      WellFormedBy(BlocksBy(lines, opens, closes)[i], opens, closes)
    decreases |lines|
  {
    if lines == [] {
    } else if !opens(lines[0]) {
      BlocksAreWellFormed(lines[1..], opens, closes);
    } else {
      var n := BlockLength(lines, opens, closes);
      var b := lines[..n];
      if !closes(lines[0]) {
        forall j | 0 < j < |b| ensures !opens(b[j]) {
          assert b[j] == lines[1..][j - 1];
        }
        forall j | 0 <= j < |b| - 1 ensures !closes(b[j]) {
          if 0 < j {
            assert b[j] == lines[1..][j - 1];
          }
        }
      }
      assert WellFormedBy(b, opens, closes);
      BlocksAreWellFormed(lines[n..], opens, closes);
    }
  }

  /**
   * A block opened by lines[0] closes at the first line that ends the statement, just
   * before the next opening line, or at the end of the input.
   */
  lemma {:induction false} BlockCloses(lines: seq<Line>, opens: Line -> bool, closes: Line -> bool)
    requires lines != [] && opens(lines[0])
    ensures var b := BlocksBy(lines, opens, closes)[0];
      |b| <= |lines| && b == lines[..|b|] &&
      (|b| == |lines| || closes(b[|b| - 1]) || opens(lines[|b|]))
  {
    var n := BlockLength(lines, opens, closes);
    assert BlocksBy(lines, opens, closes)[0] == lines[..n];
    if !closes(lines[0]) {
      var m := OpenRun(lines[1..], opens, closes);
      if 0 < m && m < |lines| - 1 && !opens(lines[1..][m]) {
        assert lines[..n][n - 1] == lines[1..][m - 1];
      }
    }
  }

  /** Lines before the first opening line are dropped. */
  lemma {:induction false} LeadingLinesDropped(junk: seq<Line>, rest: seq<Line>, opens: Line -> bool, closes: Line -> bool)
    requires forall k :: 0 <= k < |junk| ==> !opens(junk[k])
    ensures BlocksBy(junk + rest, opens, closes) == BlocksBy(rest, opens, closes)
  {
    if junk != [] {
      assert (junk + rest)[1..] == junk[1..] + rest;
      LeadingLinesDropped(junk[1..], rest, opens, closes);
    } else {
      assert junk + rest == rest;
    }
  }

  /** The number of opening lines of a file. */
  function OpenCount(lines: seq<Line>, opens: Line -> bool): nat {
    if lines == [] then 0 else (if opens(lines[0]) then 1 else 0) + OpenCount(lines[1..], opens)
  }

  lemma {:induction false} OpenCountAppend(a: seq<Line>, b: seq<Line>, opens: Line -> bool)
    ensures OpenCount(a + b, opens) == OpenCount(a, opens) + OpenCount(b, opens)
  {
    if a == [] {
      assert a + b == b;
    } else {
      assert (a + b)[1..] == a[1..] + b;
      OpenCountAppend(a[1..], b, opens);
    }
  }

  lemma {:induction false} NoOpenLines(a: seq<Line>, opens: Line -> bool)
    requires forall k :: 0 <= k < |a| ==> !opens(a[k])
    ensures OpenCount(a, opens) == 0
  {
    if a != [] {
      NoOpenLines(a[1..], opens);
    }
  }

  /** No opening line is lost: each one starts exactly one block. */
  lemma {:induction false} OneBlockPerCreateLine(lines: seq<Line>, opens: Line -> bool, closes: Line -> bool)
    ensures |BlocksBy(lines, opens, closes)| == OpenCount(lines, opens)
    decreases |lines|
  {
    if lines == [] {
    } else if !opens(lines[0]) {
      OneBlockPerCreateLine(lines[1..], opens, closes);
    } else {
      var n := BlockLength(lines, opens, closes);
      assert lines == [lines[0]] + lines[1..n] + lines[n..];
      OpenCountAppend([lines[0]] + lines[1..n], lines[n..], opens);
      OpenCountAppend([lines[0]], lines[1..n], opens);
      NoOpenLines(lines[1..n], opens) by {
        if !closes(lines[0]) {
          forall k | 0 <= k < n - 1 ensures !opens(lines[1..n][k]) {
            assert lines[1..n][k] == lines[1..][k];
          }
        }
      }
      OneBlockPerCreateLine(lines[n..], opens, closes);
    }
  }
}
