/**
 * The parameter placeholders of the provisioner's INSERT and DELETE statements, and the
 * count the MySQL driver checks when it binds the parameters to them.
 */
module SqlText {

  /** The number of occurrences of c in s. */
  function CountChar(s: string, c: char): nat {
    if s == [] then 0 else (if s[0] == c then 1 else 0) + CountChar(s[1..], c)
  }

  lemma {:induction false} CountCharAppend(a: string, b: string, c: char)
    ensures CountChar(a + b, c) == CountChar(a, c) + CountChar(b, c)
    decreases |a|
  {
    if a != [] {
      assert (a + b)[1..] == a[1..] + b;
      CountCharAppend(a[1..], b, c);
    } else {
      assert a + b == b;
    }
  }

  /** The repeating pattern of a placeholder list: "%s, %s, %s". */
  const Pattern := "%s, "

  /**
   * ", ".join(["%s"] * n): n placeholders separated by ", ", that is the first 4n - 2
   * characters of "%s, %s, ..." (nothing at all for n = 0).
   */
  function Placeholders(n: nat): (r: string)
    ensures |r| == if n == 0 then 0 else 4 * n - 2
    ensures forall k :: 0 <= k < |r| ==> r[k] == Pattern[k % 4]
    decreases n
  {
    if n == 0 then ""
    else if n == 1 then "%s"
    else
      var p := Placeholders(n - 1);
      var r := p + ", %s";
      assert forall k :: |p| <= k < |r| ==> r[k] == Pattern[k % 4] by {
        forall k | |p| <= k < |r| ensures r[k] == Pattern[k % 4] {
          var j := k - |p|;
          assert k == 4 * (n - 2) + 2 + j;
          assert k % 4 == (j + 2) % 4;
        }
      }
      r
  }

  /** A list of n placeholders has n parameter markers, so it binds exactly n values. */
  lemma {:induction false} PlaceholderCount(n: nat)
    ensures CountChar(Placeholders(n), '%') == n
    decreases n
  {
    if n == 1 {
      assert Placeholders(1) == "%s";
    } else if n > 1 {
      var p := Placeholders(n - 1);
      assert Placeholders(n) == p + ", %s" by {
        assert |Placeholders(n)| == |p + ", %s"|;
        forall k | 0 <= k < |p + ", %s"| ensures Placeholders(n)[k] == (p + ", %s")[k] {
          if k >= |p| {
            var j := k - |p|;
            assert k == 4 * (n - 2) + 2 + j;
            assert k % 4 == (j + 2) % 4;
          }
        }
      }
      PlaceholderCount(n - 1);
      CountCharAppend(p, ", %s", '%');
    }
  }
}
