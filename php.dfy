/** The optional value the PHP code writes as `?string` and friends. */
module Options {
  datatype Option<T> = None | Some(value: T)
}

/**
 * The handful of PHP built-ins the element code relies on, with PHP's own
 * semantics: `ltrim`/`rtrim` with the default character list, `implode(' ', …)`,
 * the loose `empty()` test on strings, and `$a[$k] = $v` over an array used as
 * a dictionary.
 */
module Php {

  /** The characters PHP's ltrim and rtrim strip when no list is given:
      space, tab, line feed, carriage return, NUL and vertical tab. */
  predicate IsTrimmable(c: char) {
    c == ' ' || c == '\t' || c == '\n' || c == '\r' || c == '\0' || c == '\U{000B}'
  }

  /** No trimmable character at either end. */
  predicate Clean(s: string) {
    s == [] || (!IsTrimmable(s[0]) && !IsTrimmable(s[|s| - 1]))
  }

  /** `empty($s)` for a string: true for "" and for "0". */
  predicate Empty(s: string) {
    s == "" || s == "0"
  }

  /** `ltrim($s)`. */
  function LTrim(s: string): string
    decreases |s|
  {
    if s != [] && IsTrimmable(s[0]) then LTrim(s[1..]) else s
  }

  /** `ltrim` drops the trimmable characters at the front and nothing else. */
  lemma {:induction false} LTrimSpec(s: string)
    ensures var r := LTrim(s);
            && |r| <= |s| && r == s[|s| - |r|..]
            && (r == [] || !IsTrimmable(r[0]))
            && (forall i :: 0 <= i < |s| - |r| ==> IsTrimmable(s[i]))
    decreases |s|
  {
    if s != [] && IsTrimmable(s[0]) {
      LTrimSpec(s[1..]);
    }
  }

  /** `rtrim($s)`. */
  function RTrim(s: string): string
    decreases |s|
  {
    if s != [] && IsTrimmable(s[|s| - 1]) then RTrim(s[..|s| - 1]) else s
  }

  /** `rtrim` drops the trimmable characters at the back and nothing else. */
  lemma {:induction false} RTrimSpec(s: string)
    ensures var r := RTrim(s);
            && |r| <= |s| && r == s[..|r|]
            && (r == [] || !IsTrimmable(r[|r| - 1]))
            && (forall i :: |r| <= i < |s| ==> IsTrimmable(s[i]))
    decreases |s|
  {
    if s != [] && IsTrimmable(s[|s| - 1]) {
      RTrimSpec(s[..|s| - 1]);
    }
  }

  /** `rtrim(ltrim($s))`: no trimmable character is left at either end, and
      a string that already has none there is returned unchanged. */
  function Trim(s: string): (r: string)
    ensures Clean(r) && |r| <= |s|
    ensures Clean(s) ==> r == s
  {
    LTrimSpec(s);
    RTrimSpec(LTrim(s));
    RTrim(LTrim(s))
  }

  /** `rtrim(ltrim($s))` is one contiguous slice of `s`, and every character
      outside that slice is trimmable. */
  lemma TrimSlice(s: string) returns (p: nat)
    ensures p + |Trim(s)| <= |s| && Trim(s) == s[p..p + |Trim(s)|]
    ensures forall i :: 0 <= i < p ==> IsTrimmable(s[i])
    ensures forall i :: p + |Trim(s)| <= i < |s| ==> IsTrimmable(s[i])
  {
    LTrimSpec(s);
    var l := LTrim(s);
    RTrimSpec(l);
    p := |s| - |l|;
    var t := Trim(s);
    assert t == l[..|t|];
    assert s[p..p + |t|] == l[..|t|];
    forall i | p + |t| <= i < |s|
      ensures IsTrimmable(s[i])
    {
      assert s[i] == l[i - p];
    }
  }

  /** Trimming keeps any stretch of `s` that starts and ends with a
      non-trimmable character, shifted left by what was cut at the front. */
  lemma TrimKeepsWindow(s: string, i: nat, j: nat) returns (p: nat)
    requires i < j <= |s| && !IsTrimmable(s[i]) && !IsTrimmable(s[j - 1])
    ensures p <= i && j - p <= |Trim(s)| && p + |Trim(s)| <= |s|
    ensures Trim(s) == s[p..p + |Trim(s)|]
  {
    p := TrimSlice(s);
  }

  /** Trimming removes one trailing space after a clean non-empty string. */
  lemma TrimTrailingSpace(s: string)
    requires Clean(s) && s != []
    ensures Trim(s + " ") == s
  {
    var t := s + " ";
    assert t[0] == s[0];
    assert LTrim(t) == t;
    assert t[..|t| - 1] == s;
    assert RTrim(t) == RTrim(s);
  }

  /** `implode(' ', $xs)`: the pieces in order, one space between neighbours. */
  function Implode(xs: seq<string>): (r: string)
    ensures |xs| > 0 ==> |xs[0]| <= |r| && r[..|xs[0]|] == xs[0]
    ensures |r| == 0 <==> (|xs| == 0 || (|xs| == 1 && xs[0] == ""))
    decreases |xs|
  {
    if |xs| == 0 then ""
    else if |xs| == 1 then xs[0]
    else xs[0] + " " + Implode(xs[1..])
  }

  /** Appending one piece to the list appends one space and that piece. */
  lemma {:induction false} ImplodeAppend(xs: seq<string>, x: string)
    ensures Implode(xs + [x]) == if xs == [] then x else Implode(xs) + " " + x
    decreases |xs|
  {
    if |xs| >= 2 {
      assert (xs + [x])[1..] == xs[1..] + [x];
      ImplodeAppend(xs[1..], x);
    } else if |xs| == 1 {
      assert (xs + [x])[1..] == [x];
    }
  }

  /** `$base[$k] = $v` for every `$k => $v` of `$m`, in any order: the keys
      of `m` take their value from `m`, every other key keeps its value. */
  function Overwrite<V>(base: map<string, V>, m: map<string, V>): (r: map<string, V>)
    ensures r.Keys == base.Keys + m.Keys
    ensures forall k :: k in m ==> r[k] == m[k]
    ensures forall k :: k in base && k !in m ==> r[k] == base[k]
  {
    base + m
  }
}
