/** The few Python string operations the core relies on, on `seq<char>`
    (one element per Unicode code point, as Python's `len` counts). */
module Text {

  /** str.isspace(): exactly the characters that str.strip() without arguments removes. */
  predicate IsSpace(c: char) {
    var n := c as int;
    (9 <= n <= 13) || (28 <= n <= 32) || n == 0x85 || n == 0xA0 || n == 0x1680
    || (0x2000 <= n <= 0x200A) || n == 0x2028 || n == 0x2029 || n == 0x202F
    || n == 0x205F || n == 0x3000
  }

  /** str.lstrip(): drops leading whitespace and nothing else. */
  function StripLeft(s: string): (r: string)
    ensures |r| <= |s| && r == s[|s| - |r|..]
    ensures forall k :: 0 <= k < |s| - |r| ==> IsSpace(s[k])
    ensures r == [] || !IsSpace(r[0])
  {
    if s != [] && IsSpace(s[0]) then StripLeft(s[1..]) else s
  }

  /** str.rstrip(): drops trailing whitespace and nothing else. */
  function StripRight(s: string): (r: string)
    ensures |r| <= |s| && r == s[..|r|]
    ensures forall k :: |r| <= k < |s| ==> IsSpace(s[k])
    ensures r == [] || !IsSpace(r[|r| - 1])
  {
    if s != [] && IsSpace(s[|s| - 1]) then StripRight(s[..|s| - 1]) else s
  }

  /** s is `middle` with only whitespace around it, `lead` characters before it. */
  predicate Surrounds(s: string, lead: int, middle: string) {
    && 0 <= lead && lead + |middle| <= |s| && s[lead..lead + |middle|] == middle
    && (forall k :: 0 <= k < lead ==> IsSpace(s[k]))
    && (forall k :: lead + |middle| <= k < |s| ==> IsSpace(s[k]))
  }

  /** str.strip() */
  function Strip(s: string): (r: string)
    ensures r == [] || (!IsSpace(r[0]) && !IsSpace(r[|r| - 1]))
  {
    StripLeft(StripRight(s))
  }

  /** strip() keeps the middle of s: only whitespace is dropped, at both ends. */
  lemma StripKeepsMiddle(s: string)
    ensures Surrounds(s, |StripRight(s)| - |Strip(s)|, Strip(s))
  {
    var right := StripRight(s);
    var r := StripLeft(right);
    assert r == Strip(s);
    var lead := |right| - |r|;
    assert right == s[..|right|];
    assert r == right[lead..];
    assert s[lead..lead + |r|] == r;
    forall k | 0 <= k < lead
      ensures IsSpace(s[k])
    {
      assert s[k] == right[k];
    }
  }

  /** A string strips to "" exactly when it is whitespace only. */
  lemma StripBlank(s: string)
    ensures Strip(s) == [] <==> forall k :: 0 <= k < |s| ==> IsSpace(s[k])
  {
    var right := StripRight(s);
    if Strip(s) == [] {
      // lstrip removes everything only from a string that is all whitespace,
      // and rstrip leaves no trailing whitespace: so rstrip removed all of s
      assert right == [];
    } else {
      // rstrip stopped at a character that is not whitespace
      assert right != [] && !IsSpace(s[|right| - 1]);
    }
  }

  /** str.lower() on ASCII letters; every other character is kept. */
  function LowerChar(c: char): (d: char)
    ensures IsSpace(d) <==> IsSpace(c)
  {
    if 'A' <= c <= 'Z' then (c as int + 32) as char else c
  }

  function Lower(s: string): (r: string)
    ensures |r| == |s|
    ensures forall i :: 0 <= i < |s| ==> r[i] == LowerChar(s[i])
  {
    if s == [] then [] else [LowerChar(s[0])] + Lower(s[1..])
  }

  /** `s.strip().lower()`, the normalisation applied to usernames, emails and
      login identifiers before they are checked. */
  function StripLower(s: string): (r: string)
    ensures r == [] || (!IsSpace(r[0]) && !IsSpace(r[|r| - 1]))
  {
    Lower(Strip(s))
  }

  /** `s.strip().lower()` is the middle of s, whitespace dropped at both
      ends, with each character lower-cased on its own. */
  lemma StripLowerMiddle(s: string)
    ensures |StripLower(s)| == |Strip(s)|
    ensures var lead := |StripRight(s)| - |Strip(s)|;
            forall i :: lead <= i < lead + |Strip(s)| ==> StripLower(s)[i - lead] == LowerChar(s[i])
  {
    var middle := Strip(s);
    var lowered := StripLower(s);
    var lead := |StripRight(s)| - |middle|;
    StripKeepsMiddle(s);
    assert lowered == Lower(middle);
    forall i | lead <= i < lead + |middle|
      ensures lowered[i - lead] == LowerChar(s[i])
    {
      assert middle[i - lead] == s[lead..lead + |middle|][i - lead] == s[i];
    }
  }


  /** The slice `s[:n]`. */
  function Take<T>(s: seq<T>, n: nat): (r: seq<T>)
    ensures |r| == if |s| <= n then |s| else n
    ensures r == s[..|r|]
  {
    if |s| <= n then s else s[..n]
  }

  /** `s.startswith(p)`. */
  predicate StartsWith(s: string, p: string) {
    |p| <= |s| && s[..|p|] == p
  }

  /** `s.endswith(p)`. */
  predicate EndsWith(s: string, p: string) {
    |p| <= |s| && s[|s| - |p|..] == p
  }

  /** `s.replace(a, b)` for single characters. */
  function ReplaceChar(s: string, a: char, b: char): (r: string)
    ensures |r| == |s|
    ensures forall i :: 0 <= i < |s| ==> r[i] == (if s[i] == a then b else s[i])
  {
    if s == [] then [] else [if s[0] == a then b else s[0]] + ReplaceChar(s[1..], a, b)
  }

  /** `sep.join(parts)`. */
  function Join(parts: seq<string>, sep: string): string {
    if |parts| == 0 then []
    else if |parts| == 1 then parts[0]
    else parts[0] + sep + Join(parts[1..], sep)
  }

  function TotalLength(parts: seq<string>): nat {
    if parts == [] then 0 else |parts[0]| + TotalLength(parts[1..])
  }

  /** A join is as long as its parts plus one separator between each two of them. */
  lemma {:induction false} JoinLength(parts: seq<string>, sep: string)
    ensures |Join(parts, sep)| == TotalLength(parts) + (if parts == [] then 0 else (|parts| - 1) * |sep|)
  {
    if |parts| > 1 {
      JoinLength(parts[1..], sep);
    }
  }
}
