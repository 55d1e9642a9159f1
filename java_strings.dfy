/**
 * The behaviour of the few java.lang.String operations the pipeline uses:
 * `trim`, `toUpperCase`, `split(",")` and `String.join(",", ...)`.
 * Strings are sequences of Dafny `char`s, that is Unicode scalar values; Java strings
 * are sequences of UTF-16 code units, so lengths here count code points.
 */
module JavaStrings {

  /** `trim` removes every leading and trailing character whose code is at most U+0020. */
  predicate IsTrimSpace(c: char) {
    c <= ' '
  }

  /** The string without its leading spaces and control characters. */
  function TrimLeading(s: string): string {
    if s != [] && IsTrimSpace(s[0]) then TrimLeading(s[1..]) else s
  }

  /** The string without its trailing spaces and control characters. */
  function TrimTrailing(s: string): string {
    if s != [] && IsTrimSpace(s[|s| - 1]) then TrimTrailing(s[..|s| - 1]) else s
  }

  /** `String.trim`: the string without its leading and trailing spaces and control characters. */
  function Trim(s: string): string {
    TrimTrailing(TrimLeading(s))
  }

  /** A string that `trim` leaves unchanged. */
  predicate IsTrimmed(s: string) {
    s == [] || (!IsTrimSpace(s[0]) && !IsTrimSpace(s[|s| - 1]))
  }

  /** Only leading spaces are removed, all of them, and what is left is a suffix. */
  lemma {:induction false} TrimLeadingSpec(s: string)
    ensures var r := TrimLeading(s);
      && |r| <= |s| && r == s[|s| - |r|..]
      && (forall k :: 0 <= k < |s| - |r| ==> IsTrimSpace(s[k]))
      && (r == [] || !IsTrimSpace(r[0]))
  {
    if s != [] && IsTrimSpace(s[0]) {
      TrimLeadingSpec(s[1..]);
      var r := TrimLeading(s);
      assert forall k :: 1 <= k < |s| - |r| ==> s[k] == s[1..][k - 1];
    }
  }

  /** Only trailing spaces are removed, all of them, and what is left is a prefix. */
  lemma {:induction false} TrimTrailingSpec(s: string)
    ensures var r := TrimTrailing(s);
      && |r| <= |s| && r == s[..|r|]
      && (forall k :: |r| <= k < |s| ==> IsTrimSpace(s[k]))
      && (r == [] || !IsTrimSpace(r[|r| - 1]))
  {
    if s != [] && IsTrimSpace(s[|s| - 1]) {
      TrimTrailingSpec(s[..|s| - 1]);
    }
  }

  /**
   * Cutting a run of spaces off the front of `s` (giving `l`) and then a run off the
   * back of `l` (giving `r`) leaves a trimmed middle slice of `s` with only spaces
   * around it.
   */
  lemma TrimShape(s: string, l: string, r: string)
    requires |l| <= |s| && l == s[|s| - |l|..]
    requires forall k :: 0 <= k < |s| - |l| ==> IsTrimSpace(s[k])
    requires l == [] || !IsTrimSpace(l[0])
    requires |r| <= |l| && r == l[..|r|]
    requires forall k :: |r| <= k < |l| ==> IsTrimSpace(l[k])
    requires r == [] || !IsTrimSpace(r[|r| - 1])
    ensures var i := |s| - |l|;
      && IsTrimmed(r)
      && 0 <= i && i + |r| <= |s| && r == s[i..i + |r|]
      && (forall k :: 0 <= k < i ==> IsTrimSpace(s[k]))
      && (forall k :: i + |r| <= k < |s| ==> IsTrimSpace(s[k]))
  {
    var i := |s| - |l|;
    assert forall k :: i + |r| <= k < |s| ==> s[k] == l[k - i];
    if r != [] {
      assert r[0] == l[0];
    }
  }

  /**
   * `trim` keeps the middle of the string: it removes a run of leading and a run of
   * trailing spaces and control characters, and nothing else, and leaves a trimmed string.
   */
  lemma TrimSpec(s: string)
    ensures var r, i := Trim(s), |s| - |TrimLeading(s)|;
      && IsTrimmed(r)
      && 0 <= i && i + |r| <= |s| && r == s[i..i + |r|]
      && (forall k :: 0 <= k < i ==> IsTrimSpace(s[k]))
      && (forall k :: i + |r| <= k < |s| ==> IsTrimSpace(s[k]))
  {
    TrimLeadingSpec(s);
    TrimTrailingSpec(TrimLeading(s));
    TrimShape(s, TrimLeading(s), Trim(s));
  }

  /** `trim` gives the empty string exactly when every character is a space or control character. */
  lemma TrimEmptyIff(s: string)
    ensures Trim(s) == [] <==> forall k :: 0 <= k < |s| ==> IsTrimSpace(s[k])
  {
    TrimSpec(s);
    if Trim(s) != [] {
      assert !IsTrimSpace(s[|s| - |TrimLeading(s)|]);
    }
  }

  /** A trimmed string is its own trim. */
  lemma TrimmedIsFixed(s: string)
    requires IsTrimmed(s)
    ensures Trim(s) == s
  {
    assert TrimLeading(s) == s;
  }

  /** Trimming is idempotent. */
  lemma TrimIdempotent(s: string)
    ensures Trim(Trim(s)) == Trim(s)
  {
    TrimSpec(s);
    TrimmedIsFixed(Trim(s));
  }

  /** `Character.toUpperCase` restricted to ASCII: only 'a'..'z' change. */
  function UpperChar(c: char): char {
    if 'a' <= c <= 'z' then (c as int - 32) as char else c
  }

  predicate IsAsciiLower(c: char) {
    'a' <= c <= 'z'
  }

  /** `String.toUpperCase` on ASCII text: every lower-case letter becomes its capital, nothing else changes. */
  function ToUpperCase(s: string): (r: string)
    ensures |r| == |s|
    ensures forall k :: 0 <= k < |s| ==> r[k] == UpperChar(s[k])
    ensures forall k :: 0 <= k < |r| ==> !IsAsciiLower(r[k])
  {
    if s == [] then [] else [UpperChar(s[0])] + ToUpperCase(s[1..])
  }

  /** Upper-casing twice is upper-casing once. */
  lemma {:induction false} ToUpperCaseIdempotent(s: string)
    ensures ToUpperCase(ToUpperCase(s)) == ToUpperCase(s)
  {
    var u := ToUpperCase(s);
    assert forall k :: 0 <= k < |u| ==> UpperChar(u[k]) == u[k];
  }

  /** Number of commas in a string. */
  function CommaCount(s: string): nat {
    multiset(s)[',']
  }

  lemma CommaFreeCount(s: string)
    requires ',' !in s
    ensures CommaCount(s) == 0
  {
    assert ',' !in multiset(s);
  }

  /**
   * Cutting a string at every comma, keeping every piece (also empty ones):
   * the pieces between consecutive commas, in order.
   */
  function SplitOnComma(s: string): (fields: seq<string>)
    ensures |fields| > 0
  {
    if s == [] then [""]
    else
      var rest := SplitOnComma(s[1..]);
      if s[0] == ',' then [""] + rest
      else [[s[0]] + rest[0]] + rest[1..]
  }

  /** There is one more piece than there are commas, and no piece holds a comma. */
  lemma {:induction false} SplitPieces(s: string)
    ensures |SplitOnComma(s)| == CommaCount(s) + 1
    ensures forall k :: 0 <= k < |SplitOnComma(s)| ==> ',' !in SplitOnComma(s)[k]
  {
    if s != [] {
      SplitPieces(s[1..]);
      assert s == [s[0]] + s[1..];
      assert multiset(s) == multiset([s[0]]) + multiset(s[1..]);
      var rest := SplitOnComma(s[1..]);
      var fields := SplitOnComma(s);
      if s[0] != ',' {
        assert forall k :: 1 <= k < |fields| ==> fields[k] == rest[k];
      } else {
        assert forall k :: 1 <= k < |fields| ==> fields[k] == rest[k - 1];
      }
    }
  }

  /** `String.join(",", fields)`: the fields with one comma between neighbours. */
  function JoinWithComma(fields: seq<string>): string {
    if |fields| == 0 then ""
    else if |fields| == 1 then fields[0]
    else fields[0] + "," + JoinWithComma(fields[1..])
  }

  function TotalLength(fields: seq<string>): nat {
    if fields == [] then 0 else |fields[0]| + TotalLength(fields[1..])
  }

  function TotalCommas(fields: seq<string>): nat {
    if fields == [] then 0 else CommaCount(fields[0]) + TotalCommas(fields[1..])
  }

  /** The joined string holds every character of every field, plus one comma between neighbours. */
  lemma {:induction false} JoinSize(fields: seq<string>)
    requires |fields| > 0
    ensures |JoinWithComma(fields)| == TotalLength(fields) + |fields| - 1
    ensures CommaCount(JoinWithComma(fields)) == TotalCommas(fields) + |fields| - 1
  {
    if |fields| > 1 {
      JoinSize(fields[1..]);
      var tail := JoinWithComma(fields[1..]);
      assert JoinWithComma(fields) == fields[0] + "," + tail;
      assert multiset(fields[0] + "," + tail) == multiset(fields[0]) + multiset(",") + multiset(tail);
    }
  }

  /** Joining the pieces of a split gives back the string. */
  lemma {:induction false} JoinSplit(s: string)
    ensures JoinWithComma(SplitOnComma(s)) == s
  {
    if s != [] {
      var rest := SplitOnComma(s[1..]);
      JoinSplit(s[1..]);
      var fields := SplitOnComma(s);
      assert s == [s[0]] + s[1..];
      if s[0] == ',' {
        assert fields[0] == "" && fields[1..] == rest;
        assert JoinWithComma(fields) == "" + "," + s[1..];
      } else if |rest| == 1 {
        assert fields == [[s[0]] + rest[0]];
      } else {
        var tail := JoinWithComma(rest[1..]);
        assert fields[0] == [s[0]] + rest[0] && fields[1..] == rest[1..];
        assert s[1..] == rest[0] + "," + tail;
        assert JoinWithComma(fields) == [s[0]] + rest[0] + "," + tail;
      }
    }
  }

  /** Splitting a comma-free prefix glued to `t` extends the first piece of `t`. */
  lemma {:induction false} SplitCommaFreePrefix(a: string, t: string)
    requires ',' !in a
    ensures SplitOnComma(a + t) == [a + SplitOnComma(t)[0]] + SplitOnComma(t)[1..]
  {
    if a != [] {
      SplitCommaFreePrefix(a[1..], t);
      assert (a + t)[1..] == a[1..] + t;
      assert (a + t)[0] == a[0];
      assert [a[0]] + (a[1..] + SplitOnComma(t)[0]) == a + SplitOnComma(t)[0];
    } else {
      var ft := SplitOnComma(t);
      assert a + t == t;
      assert a + ft[0] == ft[0];
      assert [ft[0]] + ft[1..] == ft;
    }
  }

  /** Splitting the join of comma-free fields gives back the fields. */
  lemma {:induction false} SplitJoin(fields: seq<string>)
    requires |fields| > 0
    requires forall k :: 0 <= k < |fields| ==> ',' !in fields[k]
    ensures SplitOnComma(JoinWithComma(fields)) == fields
  {
    if |fields| == 1 {
      SplitCommaFreePrefix(fields[0], "");
      assert fields[0] + "" == fields[0];
    } else {
      var tail := JoinWithComma(fields[1..]);
      SplitJoin(fields[1..]);
      assert JoinWithComma(fields) == fields[0] + ("," + tail);
      var comma := "," + tail;
      assert comma[0] == ',' && comma[1..] == tail;
      assert SplitOnComma(comma) == [""] + fields[1..];
      SplitCommaFreePrefix(fields[0], comma);
      assert fields[0] + "" == fields[0];
      assert fields == [fields[0]] + fields[1..];
    }
  }

  /** `fields` without its trailing empty strings. */
  function StripTrailingEmpty(fields: seq<string>): (r: seq<string>)
    ensures |r| <= |fields| && r == fields[..|r|]
    ensures forall k :: |r| <= k < |fields| ==> fields[k] == ""
    ensures r == [] || r[|r| - 1] != ""
  {
    if |fields| > 0 && fields[|fields| - 1] == "" then StripTrailingEmpty(fields[..|fields| - 1])
    else fields
  }

  /**
   * `s.split(",")` with Java's semantics for a one-character literal separator:
   * a string without a comma is its own single piece (so "" gives [""]); otherwise
   * the pieces between commas, with the trailing empty pieces removed.
   */
  function JavaSplit(s: string): seq<string> {
    if ',' !in s then [s] else StripTrailingEmpty(SplitOnComma(s))
  }

  /**
   * What `split` returns: the pieces between commas up to the last non-empty one;
   * every piece it leaves off is empty, and a comma-free string is one piece.
   */
  lemma JavaSplitPieces(s: string)
    ensures var fields, all := JavaSplit(s), SplitOnComma(s);
      && |fields| <= |all| && fields == all[..|fields|]
      && (forall k :: |fields| <= k < |all| ==> all[k] == "")
      && (',' !in s ==> fields == [s])
      && (',' in s ==> fields == [] || fields[|fields| - 1] != "")
  {
    if ',' !in s {
      SplitNoComma(s);
    }
  }

  lemma SplitNoComma(s: string)
    requires ',' !in s
    ensures SplitOnComma(s) == [s]
  {
    SplitCommaFreePrefix(s, "");
    assert s + "" == s;
  }
}
