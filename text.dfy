/** String helpers shared by the model: ASCII lower-casing, substring search,
    concatenation of a list of strings and decimal rendering of a number. */
module Text {

  /** `toLowerCase` restricted to ASCII: 'A'..'Z' become 'a'..'z', every other
      character is left as it is. */
  function LowerChar(c: char): (d: char)
    ensures !('A' <= d <= 'Z')
    ensures c != d ==> 'A' <= c <= 'Z' && 'a' <= d <= 'z'
  {
    if 'A' <= c <= 'Z' then (c as int + 32) as char else c
  }

  function ToLower(s: string): (r: string) {
    seq(|s|, i requires 0 <= i < |s| => LowerChar(s[i]))
  }

  lemma ToLowerIdempotent(s: string)
    ensures ToLower(ToLower(s)) == ToLower(s)
  {
  }

  /** Lower-casing works character by character, so it distributes over
      concatenation. */
  lemma ToLowerAppend(a: string, b: string)
    ensures ToLower(a + b) == ToLower(a) + ToLower(b)
  {
  }

  predicate IsPrefix(p: string, s: string) {
    |p| <= |s| && s[..|p|] == p
  }

  /** `s.includes(t)`: scans `s` from the left for an occurrence of `t`;
      the empty string occurs everywhere. */
  predicate Contains(s: string, t: string)
    decreases |s|
  {
    IsPrefix(t, s) || (|s| > 0 && Contains(s[1..], t))
  }

  /** `t` occurs in `s` starting at offset `i`. */
  predicate OccursAt(s: string, t: string, i: int) {
    0 <= i <= |s| - |t| && s[i..i + |t|] == t
  }

  /** An occurrence in the tail is an occurrence one further along. */
  lemma OccursAtTail(s: string, t: string, i: int)
    requires |s| > 0
    ensures OccursAt(s[1..], t, i) <==> i + 1 > 0 && OccursAt(s, t, i + 1)
  {
    if 0 <= i <= |s| - 1 - |t| {
      assert s[1..][i..i + |t|] == s[i + 1..i + 1 + |t|];
    }
  }

  /** The scan finds `t` exactly when `t` occurs at some offset of `s`. */
  lemma {:induction false} ContainsIff(s: string, t: string)
    ensures Contains(s, t) <==> exists i :: OccursAt(s, t, i)
    decreases |s|
  {
    if IsPrefix(t, s) {
      assert OccursAt(s, t, 0);
    } else if |s| == 0 {
      forall i ensures !OccursAt(s, t, i) { }
    } else {
      ContainsIff(s[1..], t);
      if Contains(s[1..], t) {
        var i :| OccursAt(s[1..], t, i);
        OccursAtTail(s, t, i);
      } else {
        forall i ensures !OccursAt(s, t, i) {
          if i > 0 {
            OccursAtTail(s, t, i - 1);
          } else if i == 0 && |t| <= |s| {
            assert s[0..|t|] == s[..|t|];
          }
        }
      }
    }
  }

  /** Whatever surrounds a string, the result contains it. */
  lemma ContainsInfix(a: string, t: string, b: string)
    ensures Contains(a + t + b, t)
  {
    var s := a + t + b;
    assert s[|a|..|a| + |t|] == t;
    assert OccursAt(s, t, |a|);
    ContainsIff(s, t);
  }

  /** A string contains each of its prefixes. */
  lemma ContainsPrefix(t: string, b: string)
    ensures Contains(t + b, t)
  {
    assert (t + b)[..|t|] == t;
  }

  /** Containment is transitive. */
  lemma ContainsTrans(s: string, t: string, u: string)
    requires Contains(s, t) && Contains(t, u)
    ensures Contains(s, u)
  {
    ContainsIff(s, t);
    ContainsIff(t, u);
    var i :| OccursAt(s, t, i);
    var j :| OccursAt(t, u, j);
    assert s[i + j..i + j + |u|] == u by {
      forall k | 0 <= k < |u| ensures s[i + j + k] == u[k] {
        assert s[i..i + |t|][j + k] == t[j + k];
        assert t[j..j + |u|][k] == u[k];
      }
    }
    assert OccursAt(s, u, i + j);
    ContainsIff(s, u);
  }

  /** `strings.join('')`. */
  function Join(ss: seq<string>): (s: string)
  {
    if ss == [] then "" else ss[0] + Join(ss[1..])
  }

  lemma {:induction false} JoinAppend(a: seq<string>, b: seq<string>)
    ensures Join(a + b) == Join(a) + Join(b)
    decreases |a|
  {
    if a == [] {
      assert a + b == b;
    } else {
      assert (a + b)[1..] == a[1..] + b;
      JoinAppend(a[1..], b);
    }
  }

  /** Joining puts each piece between the pieces before it and those after. */
  lemma JoinSplit(ss: seq<string>, k: nat)
    requires k < |ss|
    ensures Join(ss) == Join(ss[..k]) + ss[k] + Join(ss[k + 1..])
  {
    var a, rest := ss[..k], ss[k..];
    assert ss == a + rest;
    JoinAppend(a, rest);
    assert rest[1..] == ss[k + 1..];
    assert Join(rest) == ss[k] + Join(ss[k + 1..]);
  }

  /** Every piece occurs in the joined string. */
  lemma JoinContains(ss: seq<string>, k: nat)
    requires k < |ss|
    ensures Contains(Join(ss), ss[k])
  {
    JoinSplit(ss, k);
    ContainsInfix(Join(ss[..k]), ss[k], Join(ss[k + 1..]));
  }

  /** The decimal digits of `n`, as JavaScript prints a non-negative integer. */
  function Decimal(n: nat): (s: string)
    ensures |s| >= 1
    ensures forall i :: 0 <= i < |s| ==> '0' <= s[i] <= '9'
    decreases n
  {
    if n < 10 then [DigitChar(n)] else Decimal(n / 10) + [DigitChar(n % 10)]
  }

  function DigitChar(d: nat): (c: char)
    requires d < 10
    ensures '0' <= c <= '9'
  {
    ('0' as int + d) as char
  }

  /** Index of the last `c` in `s`, or -1. */
  function LastIndex(s: string, c: char): (k: int)
    ensures -1 <= k < |s|
    decreases |s|
  {
    if |s| == 0 then -1
    else if s[|s| - 1] == c then |s| - 1
    else LastIndex(s[..|s| - 1], c)
  }

  /** `LastIndex` finds an occurrence of `c` and none lies after it. */
  lemma {:induction false} LastIndexSpec(s: string, c: char)
    ensures LastIndex(s, c) >= 0 ==> s[LastIndex(s, c)] == c
    ensures forall j :: LastIndex(s, c) < j < |s| ==> s[j] != c
    decreases |s|
  {
    if |s| > 0 && s[|s| - 1] != c {
      var t := s[..|s| - 1];
      LastIndexSpec(t, c);
      forall j | LastIndex(s, c) < j < |s| ensures s[j] != c {
        if j < |s| - 1 { assert s[j] == t[j]; }
      }
    }
  }

  /** The two facts of LastIndexSpec determine the index. */
  lemma LastIndexIs(s: string, c: char, k: int)
    requires k == -1 || (0 <= k < |s| && s[k] == c)
    requires forall j :: k < j < |s| ==> s[j] != c
    ensures LastIndex(s, c) == k
  {
    LastIndexSpec(s, c);
  }
}
