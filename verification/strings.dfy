/**
 * The parts of Go's `strings` package and of `net/http.Header` that the
 * handler relies on, over strings modelled as sequences of characters.
 */
module Strings {

  /** `strings.HasPrefix`: `s` begins with `prefix`. */
  predicate HasPrefix(s: string, prefix: string)
    ensures HasPrefix(s, prefix) <==> |prefix| <= |s| && s[..|prefix|] == prefix
  {
    prefix <= s
  }

  /** `strings.TrimPrefix`: removes one leading `prefix` when present. */
  function TrimPrefix(s: string, prefix: string): (r: string)
    ensures HasPrefix(s, prefix) ==> prefix + r == s
    ensures !HasPrefix(s, prefix) ==> r == s
  {
    if HasPrefix(s, prefix) then s[|prefix|..] else s
  }

  /** `substr` occurs in `s` starting at position `i`. */
  ghost predicate OccursAt(s: string, substr: string, i: int) {
    0 <= i && i + |substr| <= |s| && s[i..i + |substr|] == substr
  }

  /** Occurrences in the tail of `s` are the occurrences in `s` past its first position. */
  lemma OccursInTail(s: string, substr: string)
    requires s != []
    ensures forall i :: OccursAt(s[1..], substr, i) ==> OccursAt(s, substr, i + 1)
    ensures forall i :: OccursAt(s, substr, i) && i >= 1 ==> OccursAt(s[1..], substr, i - 1)
  {
  }

  /** `strings.Contains`: a substring search, scanning from the left. */
  function Contains(s: string, substr: string): (r: bool)
    ensures r <==> exists i :: OccursAt(s, substr, i)
    decreases |s|
  {
    if HasPrefix(s, substr) then
      assert OccursAt(s, substr, 0);
      true
    else if s == [] then
      false
    else
      OccursInTail(s, substr);
      assert !OccursAt(s, substr, 0);
      Contains(s[1..], substr)
  }

  /** Searching for a one-character string is membership of that character. */
  lemma ContainsChar(s: string, c: char)
    ensures Contains(s, [c]) <==> c in s
  {
    if c in s {
      var j :| 0 <= j < |s| && s[j] == c;
      assert s[j..j + 1] == [c];
      assert OccursAt(s, [c], j);
    }
    if Contains(s, [c]) {
      var i :| OccursAt(s, [c], i);
      assert s[i] == s[i..i + 1][0];
    }
  }
}

/** `net/http.Header`: canonical header name to the list of its values. */
module Http {

  type Header = map<string, seq<string>>

  /** `Header.Get`: the first value under `key`, or "" when there is none. */
  function Get(h: Header, key: string): (v: string)
    ensures key in h && h[key] != [] ==> v == h[key][0]
    ensures key !in h || h[key] == [] ==> v == ""
  {
    if key in h && h[key] != [] then h[key][0] else ""
  }
}
