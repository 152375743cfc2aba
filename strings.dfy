/** Text helpers shared by the components: joining a list of strings,
    Python's str.endswith and an ASCII model of str.lower. */
module Strings {

  /** The parts joined end to end, in order (Python's "".join(parts)). */
  function Concat<T>(parts: seq<seq<T>>): seq<T>
  {
    if parts == [] then [] else parts[0] + Concat(parts[1..])
  }

  lemma {:induction false} ConcatAppend<T>(parts: seq<seq<T>>, last: seq<T>)
    ensures Concat(parts + [last]) == Concat(parts) + last
  {
    if parts == [] {
      assert parts + [last] == [last];
    } else {
      assert (parts + [last])[1..] == parts[1..] + [last];
      ConcatAppend(parts[1..], last);
    }
  }

  /** str.endswith(suffix): the last |suffix| characters of s are suffix. */
  predicate EndsWith(s: string, suffix: string)
  {
    |suffix| <= |s| && s[|s| - |suffix|..] == suffix
  }

  /** A suffix of a suffix is a suffix. */
  lemma EndsWithTransitive(s: string, t: string, suffix: string)
    requires EndsWith(s, t) && EndsWith(t, suffix)
    ensures EndsWith(s, suffix)
  {
    assert s[|s| - |suffix|..] == s[|s| - |t|..][|t| - |suffix|..];
  }

  /** str.lower() on one character, restricted to ASCII: 'A'..'Z' map to 'a'..'z',
      every other character is left as it is. */
  function LowerChar(c: char): char
  {
    if 'A' <= c <= 'Z' then (c as int - 'A' as int + 'a' as int) as char else c
  }

  /** str.lower(), character by character (ASCII model). */
  function Lower(s: string): string
  {
    seq(|s|, i requires 0 <= i < |s| => LowerChar(s[i]))
  }
}
