/** The handful of PHP built-ins the webhook controller leans on, stated over
    strings as sequences of characters (PHP strings are byte strings; here one
    character stands for one byte). */
module Php {

  /** A value that is either PHP `null` or present. */
  datatype Option<+T> = None | Some(value: T)

  /** Reading `$array[$key]`: a missing key reads as `null`. */
  function Get(m: map<string, string>, key: string): (v: Option<string>)
    ensures v.Some? <==> key in m
    ensures v.Some? ==> v.value == m[key]
  {
    if key in m then Some(m[key]) else None
  }

  /** PHP truthiness of a string: only "" and "0" are falsy. */
  predicate StringTruthy(s: string)
  {
    s != "" && s != "0"
  }

  /** PHP `empty()` applied to a value that is null or a string. */
  predicate Empty(v: Option<string>)
  {
    match v
    case None => true
    case Some(s) => !StringTruthy(s)
  }

  /** `empty()` holds of exactly three values: null, "" and "0". */
  lemma EmptyExactly(v: Option<string>)
    ensures Empty(v) <==> (v == None || v == Some("") || v == Some("0"))
  {
  }

  /** `substr($s, 1)`: everything after the first character ("" when `$s` is empty). */
  function DropFirst(s: string): (r: string)
    ensures |s| > 0 ==> [s[0]] + r == s
    ensures |s| == 0 ==> r == ""
  {
    if |s| == 0 then "" else s[1..]
  }

  /** `str_replace($c, "", $s)` for a one-character needle: every `c` removed. */
  function RemoveAll(c: char, s: string): (r: string)
    ensures c !in r
    ensures |r| == |s| - multiset(s)[c]
    decreases |s|
  {
    if |s| == 0 then ""
    else
      assert s == [s[0]] + s[1..];
      (if s[0] == c then "" else [s[0]]) + RemoveAll(c, s[1..])
  }

  /** Removal distributes over concatenation. */
  lemma {:induction false} RemoveAllAppend(c: char, a: string, b: string)
    ensures RemoveAll(c, a + b) == RemoveAll(c, a) + RemoveAll(c, b)
    decreases |a|
  {
    if |a| == 0 {
      assert a + b == b;
    } else {
      assert (a + b)[1..] == a[1..] + b;
      RemoveAllAppend(c, a[1..], b);
    }
  }

  /** A string without `c` is left exactly as it was. */
  lemma {:induction false} RemoveAllAbsent(c: char, s: string)
    requires c !in s
    ensures RemoveAll(c, s) == s
    decreases |s|
  {
    if |s| > 0 {
      assert s == [s[0]] + s[1..];
      RemoveAllAbsent(c, s[1..]);
    }
  }

  /** Every character other than `c` keeps its number of occurrences. */
  lemma {:induction false} RemoveAllKeepsOthers(c: char, s: string, d: char)
    requires d != c
    ensures multiset(RemoveAll(c, s))[d] == multiset(s)[d]
    decreases |s|
  {
    if |s| > 0 {
      assert s == [s[0]] + s[1..];
      RemoveAllKeepsOthers(c, s[1..], d);
    }
  }

  /** `str_replace($from, $to, $s)` for one-character needle and replacement. */
  function ReplaceChar(s: string, from: char, to: char): (r: string)
    ensures |r| == |s|
    ensures from != to ==> from !in r
    ensures forall i :: 0 <= i < |s| && s[i] != from ==> r[i] == s[i]
    ensures forall i :: 0 <= i < |s| && s[i] == from ==> r[i] == to
  {
    seq(|s|, i requires 0 <= i < |s| => if s[i] == from then to else s[i])
  }

  /** `rtrim($s, $c)`: the longest prefix of `s` that does not end in `c`. */
  function RTrim(s: string, c: char): (r: string)
    ensures |r| <= |s| && r == s[..|r|]
    ensures |r| == 0 || r[|r| - 1] != c
    ensures forall i :: |r| <= i < |s| ==> s[i] == c
    decreases |s|
  {
    if |s| > 0 && s[|s| - 1] == c then RTrim(s[..|s| - 1], c) else s
  }

  /** `explode($d, $s)`: the pieces of `s` between occurrences of `d`. */
  function Explode(d: char, s: string): (parts: seq<string>)
    ensures |parts| >= 1
    decreases |s|
  {
    if |s| == 0 then [""]
    else
      var rest := Explode(d, s[1..]);
      if s[0] == d then [""] + rest else [[s[0]] + rest[0]] + rest[1..]
  }

  /** `implode($d, $parts)`, the inverse of `Explode`. */
  function Implode(d: char, parts: seq<string>): string
    requires |parts| >= 1
    decreases |parts|
  {
    if |parts| == 1 then parts[0] else parts[0] + [d] + Implode(d, parts[1..])
  }

  /** Exploding and joining again gives back the string. */
  lemma {:induction false} ImplodeExplode(d: char, s: string)
    ensures Implode(d, Explode(d, s)) == s
    decreases |s|
  {
    if |s| > 0 {
      var rest := Explode(d, s[1..]);
      ImplodeExplode(d, s[1..]);
      if s[0] == d {
        assert Explode(d, s)[1..] == rest;
      } else {
        var parts := Explode(d, s);
        assert parts[1..] == rest[1..];
        if |rest| == 1 {
          assert Implode(d, parts) == [s[0]] + rest[0];
        } else {
          assert Implode(d, rest) == rest[0] + [d] + Implode(d, rest[1..]);
        }
      }
      assert s == [s[0]] + s[1..];
    }
  }

  /** No piece contains the delimiter. */
  lemma {:induction false} ExplodePiecesFree(d: char, s: string)
    ensures forall i :: 0 <= i < |Explode(d, s)| ==> d !in Explode(d, s)[i]
    decreases |s|
  {
    if |s| > 0 {
      ExplodePiecesFree(d, s[1..]);
    }
  }

  /** There is one more piece than there are delimiters. */
  lemma {:induction false} ExplodeCount(d: char, s: string)
    ensures |Explode(d, s)| == multiset(s)[d] + 1
    decreases |s|
  {
    if |s| > 0 {
      assert s == [s[0]] + s[1..];
      ExplodeCount(d, s[1..]);
    }
  }

  /** A string with no delimiter explodes into itself alone. */
  lemma {:induction false} ExplodeFree(d: char, a: string)
    requires d !in a
    ensures Explode(d, a) == [a]
    decreases |a|
  {
    if |a| > 0 {
      ExplodeFree(d, a[1..]);
      assert [a[0]] + a[1..] == a;
    }
  }

  /** A delimiter-free head followed by the delimiter becomes its own piece. */
  lemma {:induction false} ExplodeCons(d: char, a: string, b: string)
    requires d !in a
    ensures Explode(d, a + [d] + b) == [a] + Explode(d, b)
    decreases |a|
  {
    var s := a + [d] + b;
    if |a| == 0 {
      assert s[1..] == b;
    } else {
      assert s[1..] == a[1..] + [d] + b;
      ExplodeCons(d, a[1..], b);
      assert [a[0]] + a[1..] == a;
    }
  }

  /** Joining delimiter-free pieces and exploding again gives back the pieces. */
  lemma {:induction false} ExplodeImplode(d: char, parts: seq<string>)
    requires |parts| >= 1
    requires forall i :: 0 <= i < |parts| ==> d !in parts[i]
    ensures Explode(d, Implode(d, parts)) == parts
    decreases |parts|
  {
    if |parts| == 1 {
      ExplodeFree(d, parts[0]);
    } else {
      ExplodeImplode(d, parts[1..]);
      ExplodeCons(d, parts[0], Implode(d, parts[1..]));
      assert [parts[0]] + parts[1..] == parts;
    }
  }
}
