/**
  The few pieces of PHP's runtime that ApiHelper's logic depends on, stated
  exactly for the inputs the model admits:
  - `trim($s)` with its default character list,
  - the truthiness of a string (`""` and `"0"` are false),
  - `intval` of a boolean,
  - `ceil($t / $ps)` for a non-negative total and a positive page size,
    computed as an exact integer ceiling.
 */
module PhpRuntime {

  /** The characters `trim` strips when no character list is given:
      space, tab, line feed, carriage return, NUL and vertical tab. */
  const TrimChars: set<char> := {' ', '\t', '\n', '\r', '\0', '\U{B}'}

  predicate IsTrimChar(c: char) {
    c in TrimChars
  }

  predicate AllTrimChars(s: string) {
    forall i :: 0 <= i < |s| ==> IsTrimChar(s[i])
  }

  /** How many trim characters `s` starts with: where `ltrim` cuts. */
  function LeadLen(s: string): (n: nat)
    ensures n <= |s| && AllTrimChars(s[..n])
    ensures n < |s| ==> !IsTrimChar(s[n])
  {
    if s != [] && IsTrimChar(s[0]) then
      var n := 1 + LeadLen(s[1..]);
      assert forall i :: 1 <= i < n ==> s[..n][i] == s[1..][..n - 1][i - 1];
      n
    else 0
  }

  /** How many trim characters `s` ends with: where `rtrim` cuts. */
  function TrailLen(s: string): (n: nat)
    ensures n <= |s| && AllTrimChars(s[|s| - n..])
    ensures n < |s| ==> !IsTrimChar(s[|s| - 1 - n])
  {
    if s != [] && IsTrimChar(s[|s| - 1]) then
      var s' := s[..|s| - 1];
      var n := 1 + TrailLen(s');
      var tail := s[|s| - n..];
      assert AllTrimChars(tail) by {
        forall i | 0 <= i < |tail| ensures IsTrimChar(tail[i]) {
          if i < n - 1 {
            assert tail[i] == s'[|s'| - (n - 1)..][i];
          }
        }
      }
      n
    else 0
  }

  /** `trim`: what lies between the leading and the trailing run of trim
      characters; nothing at all when the string is made of them. */
  function Trim(s: string): (r: string)
    ensures var k := LeadLen(s);
      k + |r| <= |s| && r == s[k..k + |r|] && AllTrimChars(s[..k]) && AllTrimChars(s[k + |r|..])
    ensures r == [] || (!IsTrimChar(r[0]) && !IsTrimChar(r[|r| - 1]))
  {
    var k, t := LeadLen(s), TrailLen(s);
    if k == |s| then []
    else
      assert |s| - 1 - t >= k by {
        forall j | |s| - t <= j < |s| ensures IsTrimChar(s[j]) {
          assert s[|s| - t..][j - (|s| - t)] == s[j];
        }
      }
      s[k..|s| - t]
  }

  /** A string with no trim character at either end is its own `trim`. */
  lemma TrimOfTrimmed(s: string)
    requires s == [] || (!IsTrimChar(s[0]) && !IsTrimChar(s[|s| - 1]))
    ensures Trim(s) == s
  {
    assert LeadLen(s) == 0 && TrailLen(s) == 0;
  }

  /** A string used as a condition: only `""` and `"0"` are false in PHP. */
  predicate Truthy(s: string) {
    s != "" && s != "0"
  }

  /** `trim($s) ? ... : ...` takes the second branch exactly when `Blank(s)`. */
  predicate Blank(s: string) {
    !Truthy(Trim(s))
  }

  /** `s` is a single `0` padded on both sides with trim characters only. */
  predicate IsPaddedZero(s: string) {
    exists i :: 0 <= i < |s| && s[i] == '0' && AllTrimChars(s[..i]) && AllTrimChars(s[i + 1..])
  }

  /** Every blank string is made of trim characters or is a padded `0`. */
  lemma BlankShape(s: string)
    requires Blank(s)
    ensures AllTrimChars(s) || IsPaddedZero(s)
  {
    var k, r := LeadLen(s), Trim(s);
    if r == "" {
      assert s[k..] == [] && s == s[..k];
    } else {
      assert s[k] == '0';
    }
  }

  /** Only trim characters: `trim` leaves nothing. */
  lemma TrimOfTrimChars(s: string)
    requires AllTrimChars(s)
    ensures Trim(s) == []
  {
    assert LeadLen(s) == |s|;
  }

  /** A `0` padded with trim characters trims to `"0"`. */
  lemma TrimOfPaddedZero(s: string, i: int)
    requires 0 <= i < |s| && s[i] == '0' && AllTrimChars(s[..i]) && AllTrimChars(s[i + 1..])
    ensures Trim(s) == "0"
  {
    var k, r := LeadLen(s), Trim(s);
    assert forall j :: 0 <= j < i ==> s[..i][j] == s[j];
    assert forall j :: 0 <= j < k ==> s[..k][j] == s[j];
    assert k == i;
    assert forall j :: i + 1 <= j < |s| ==> s[i + 1..][j - (i + 1)] == s[j];
    assert |r| == 1;
  }

  /** A direct description of the blank strings, independent of how `trim`
      is computed: nothing but trim characters, or a lone `0` padded with them. */
  lemma BlankIff(s: string)
    ensures Blank(s) <==> AllTrimChars(s) || IsPaddedZero(s)
  {
    if Blank(s) {
      BlankShape(s);
    } else if AllTrimChars(s) {
      TrimOfTrimChars(s);
    } else if IsPaddedZero(s) {
      var i :| 0 <= i < |s| && s[i] == '0' && AllTrimChars(s[..i]) && AllTrimChars(s[i + 1..]);
      TrimOfPaddedZero(s, i);
    }
  }

  /** `intval` of a boolean. */
  function BoolToInt(b: bool): (n: int)
    ensures 0 <= n <= 1 && (n == 1 <==> b)
  {
    if b then 1 else 0
  }

  /** `ceil($t / $ps)` for `$t >= 0` and `$ps > 0`, computed on integers:
      the number of blocks of size `ps` needed to hold `t` items. */
  function CeilDiv(t: int, ps: int): (q: int)
    requires t >= 0 && ps > 0
    ensures q >= 0 && (q == 0 <==> t == 0)
    ensures (q - 1) * ps < t <= q * ps
  {
    var q := (t + ps - 1) / ps;
    var m := (t + ps - 1) % ps;
    assert t + ps - 1 == q * ps + m && 0 <= m < ps;
    assert (q - 1) * ps == q * ps - ps;
    q
  }

  /** The bounds in CeilDiv's contract determine it: any `q` with
      `(q - 1) * ps < t <= q * ps` is the ceiling. */
  lemma CeilDivUnique(t: int, ps: int, q: int)
    requires t >= 0 && ps > 0
    requires (q - 1) * ps < t <= q * ps
    ensures q == CeilDiv(t, ps)
  {
    var c := CeilDiv(t, ps);
  }

}
