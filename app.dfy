/**
 * Two pieces of the terminal front end: the bounded message log of AppState, and the
 * conversion of the number typed at a selection menu into an item index.
 */
module AppLog {
  import opened Results
  import opened Text
  import opened Numbers

  /** The log keeps this many messages. */
  const MaxLogMessages := 100

  /** The last n elements of s, or all of s when it is shorter. */
  function Newest(s: seq<string>, n: nat): (r: seq<string>)
    ensures |r| == if |s| <= n then |s| else n
    ensures forall k :: 0 <= k < |r| ==> r[k] == s[|s| - |r| + k]
  {
    if |s| <= n then s else s[|s| - n..]
  }

  /** f"[{timestamp}] {message}" */
  function Stamped(timestamp: string, message: string): string {
    "[" + timestamp + "] " + message
  }

  class AppState {
    /** The messages shown in the log pane, oldest first. */
    var logMessages: seq<string>
    /** Every message added so far. */
    ghost var history: seq<string>

    ghost predicate Valid()
      reads this
    {
      logMessages == Newest(history, MaxLogMessages)
    }

    constructor ()
      ensures Valid() && history == [] && logMessages == []
    {
      logMessages := [];
      history := [];
    }

    /** add_log, with the clock reading as a parameter: appends, then keeps the newest 100. */
    method AddLog(timestamp: string, message: string)
      requires Valid()
      modifies this
      ensures Valid()
      ensures history == old(history) + [Stamped(timestamp, message)]
      ensures logMessages == Newest(old(logMessages) + [Stamped(timestamp, message)], MaxLogMessages)
    {
      var entry := Stamped(timestamp, message);
      logMessages := logMessages + [entry];
      if |logMessages| > MaxLogMessages {
        logMessages := logMessages[|logMessages| - MaxLogMessages..];
      }
      history := history + [entry];
      NewestSnoc(old(history), entry, MaxLogMessages);
    }
  }

  /** Keeping the newest n after each append keeps the newest n of everything appended. */
  lemma {:induction false} NewestSnoc(h: seq<string>, x: string, n: nat)
    ensures Newest(Newest(h, n) + [x], n) == Newest(h + [x], n)
  {
    var a := Newest(Newest(h, n) + [x], n);
    var b := Newest(h + [x], n);
    assert |a| == |b|;
    forall k | 0 <= k < |a| ensures a[k] == b[k] {
      if k == |a| - 1 {
        assert a[k] == x && b[k] == x;
      }
    }
  }

  /**
   * The index chosen at a selection menu of `count` items: the typed text (None when it
   * could not be read, which counts as "0"), stripped and read as an integer; 1..count
   * select an item, anything else cancels.
   */
  function SelectionIndex(typed: Option<string>, count: nat): (r: Option<nat>)
    ensures r.Some? ==> r.value < count
    ensures r.Some? <==> (var n := ParseInt(Strip(if typed.None? then "0" else typed.value)); n.Some? && 1 <= n.value <= count)
    ensures r.Some? ==> r.value == ParseInt(Strip(if typed.None? then "0" else typed.value)).value - 1
  {
    var text := Strip(if typed.None? then "0" else typed.value);
    var num := ParseInt(text);
    if num.None? then None
    else if num.value <= 0 || num.value > count then None
    else Some(num.value - 1)
  }

  /** Typing the number an item is shown with selects that item. */
  lemma {:induction false} SelectShownNumber(k: nat, count: nat)
    requires k < count
    ensures SelectionIndex(Some(Decimal(k + 1)), count) == Some(k)
  {
    var d := Decimal(k + 1);
    StripSignedDigits(d);
    ParseIntOfDecimal(k + 1);
  }

  /** Typing 0, or nothing readable, cancels. */
  lemma {:induction false} ZeroCancels(count: nat)
    ensures SelectionIndex(None, count) == None
    ensures SelectionIndex(Some("0"), count) == None
  {
    ParseIntOfDecimal(0);
    assert Decimal(0) == "0";
    StripSignedDigits("0");
  }
}
