/** The string operations of the Go library that the service relies on. */
module Texts {
  /** Unicode white space, as strings.TrimSpace knows it. */
  predicate IsSpace(c: char) {
    var n := c as int;
    9 <= n <= 13 || n == 32 || n == 0x85 || n == 0xA0 || n == 0x1680 || 0x2000 <= n <= 0x200A ||
    n == 0x2028 || n == 0x2029 || n == 0x202F || n == 0x205F || n == 0x3000
  }

  predicate Blank(s: string) {
    forall i :: 0 <= i < |s| ==> IsSpace(s[i])
  }

  predicate Trimmed(s: string) {
    s == "" || (!IsSpace(s[0]) && !IsSpace(s[|s| - 1]))
  }

  function TrimLeft(s: string): string {
    if s != "" && IsSpace(s[0]) then TrimLeft(s[1..]) else s
  }

  function TrimRight(s: string): string {
    if s != "" && IsSpace(s[|s| - 1]) then TrimRight(s[..|s| - 1]) else s
  }

  function TrimSpace(s: string): string {
    TrimRight(TrimLeft(s))
  }

  /** strings.Split for a one-character separator. */
  function Split(s: string, sep: char): (parts: seq<string>)
    ensures |parts| >= 1
  {
    if s == "" then [""]
    else
      var rest := Split(s[1..], sep);
      if s[0] == sep then [""] + rest else [[s[0]] + rest[0]] + rest[1..]
  }

  function Join(parts: seq<string>, sep: char): string {
    if parts == [] then ""
    else if |parts| == 1 then parts[0]
    else parts[0] + [sep] + Join(parts[1..], sep)
  }

  function RemoveAllSpace(s: string): string {
    if s == "" then "" else (if s[0] == ' ' then "" else [s[0]]) + RemoveAllSpace(s[1..])
  }

  /** typed is key with blanks put in anywhere. */
  predicate SpacedOut(typed: string, key: string) {
    if typed == "" then key == ""
    else if typed[0] == ' ' then SpacedOut(typed[1..], key)
    else key != "" && key[0] == typed[0] && SpacedOut(typed[1..], key[1..])
  }

  lemma {:induction false} RemovingSpaces(typed: string, key: string)
    ensures SpacedOut(typed, key) <==> RemoveAllSpace(typed) == key
  {
    if typed != "" {
      if typed[0] == ' ' {
        RemovingSpaces(typed[1..], key);
      } else if key != "" {
        RemovingSpaces(typed[1..], key[1..]);
        var rest := RemoveAllSpace(typed[1..]);
        assert ([typed[0]] + rest)[1..] == rest;
        assert key == [key[0]] + key[1..];
      }
    }
  }

  lemma {:induction false} NothingToRemove(s: string)
    requires FreeOf(s, ' ')
    ensures RemoveAllSpace(s) == s
  {
    if s != "" {
      NothingToRemove(s[1..]);
    }
  }

  // ---- Trimming ------------------------------------------------------------

  lemma {:induction false} TrimLeftPads(a: string, t: string)
    requires Blank(a) && (t == "" || !IsSpace(t[0]))
    ensures TrimLeft(a + t) == t
  {
    if a != "" {
      assert (a + t)[1..] == a[1..] + t;
      TrimLeftPads(a[1..], t);
    } else {
      assert a + t == t;
    }
  }

  lemma {:induction false} TrimRightPads(t: string, b: string)
    requires Blank(b) && (t == "" || !IsSpace(t[|t| - 1]))
    ensures TrimRight(t + b) == t
  {
    if b != "" {
      assert (t + b)[..|t + b| - 1] == t + b[..|b| - 1];
      TrimRightPads(t, b[..|b| - 1]);
    } else {
      assert t + b == t;
    }
  }

  lemma {:induction false} TrimLeftSplits(s: string) returns (a: string)
    ensures Blank(a) && s == a + TrimLeft(s)
    ensures TrimLeft(s) == "" || !IsSpace(TrimLeft(s)[0])
  {
    a := "";
    if s != "" && IsSpace(s[0]) {
      a := TrimLeftSplits(s[1..]);
      a := [s[0]] + a;
    }
  }

  lemma {:induction false} TrimRightSplits(s: string) returns (b: string)
    ensures Blank(b) && s == TrimRight(s) + b
    ensures TrimRight(s) == "" || !IsSpace(TrimRight(s)[|TrimRight(s)| - 1])
  {
    b := "";
    if s != "" && IsSpace(s[|s| - 1]) {
      b := TrimRightSplits(s[..|s| - 1]);
      b := b + [s[|s| - 1]];
    }
  }

  /** TrimSpace removes exactly the surrounding blanks. */
  lemma TrimSpaceSplits(s: string) returns (a: string, b: string)
    ensures Blank(a) && Blank(b) && s == a + TrimSpace(s) + b && Trimmed(TrimSpace(s))
  {
    a := TrimLeftSplits(s);
    b := TrimRightSplits(TrimLeft(s));
    var t := TrimSpace(s);
    if t != "" {
      assert TrimLeft(s)[0] == (t + b)[0] == t[0];
    }
  }

  lemma TrimSpacePads(a: string, t: string, b: string)
    requires Blank(a) && Blank(b) && Trimmed(t)
    ensures TrimSpace(a + t + b) == t
  {
    if t == "" {
      assert a + t + b == (a + b) + "";
      TrimLeftPads(a + b, "");
    } else {
      assert a + t + b == a + (t + b);
      TrimLeftPads(a, t + b);
      TrimRightPads(t, b);
    }
  }

  // ---- Splitting -----------------------------------------------------------

  predicate FreeOf(s: string, c: char) {
    forall i :: 0 <= i < |s| ==> s[i] != c
  }

  lemma {:induction false} SplitFree(s: string, sep: char)
    ensures forall i :: 0 <= i < |Split(s, sep)| ==> FreeOf(Split(s, sep)[i], sep)
  {
    if s != "" {
      SplitFree(s[1..], sep);
    }
  }

  lemma {:induction false} SplitOne(p: string, sep: char, rest: string)
    requires FreeOf(p, sep)
    ensures Split(p + [sep] + rest, sep) == [p] + Split(rest, sep)
    ensures Split(p, sep) == [p]
  {
    if p == "" {
      assert (p + [sep] + rest)[1..] == rest;
    } else {
      assert (p + [sep] + rest)[1..] == p[1..] + [sep] + rest;
      SplitOne(p[1..], sep, rest);
      assert p == [p[0]] + p[1..];
    }
  }

  /** Splitting undoes joining. */
  lemma {:induction false} SplitJoin(parts: seq<string>, sep: char)
    requires parts != [] && forall i :: 0 <= i < |parts| ==> FreeOf(parts[i], sep)
    ensures Split(Join(parts, sep), sep) == parts
  {
    if |parts| == 1 {
      SplitOne(parts[0], sep, "");
    } else {
      var tail := parts[1..];
      assert forall i :: 0 <= i < |tail| ==> tail[i] == parts[i + 1];
      SplitJoin(tail, sep);
      var rest := Join(tail, sep);
      SplitOne(parts[0], sep, rest);
      assert Join(parts, sep) == parts[0] + [sep] + rest;
      assert parts == [parts[0]] + tail;
    }
  }

  /** Joining undoes splitting. */
  lemma {:induction false} JoinSplit(s: string, sep: char)
    ensures Join(Split(s, sep), sep) == s
  {
    if s != "" {
      JoinSplit(s[1..], sep);
      var rest := Split(s[1..], sep);
      if s[0] != sep {
        assert ([[s[0]] + rest[0]] + rest[1..])[1..] == rest[1..];
      } else {
        assert ([""] + rest)[1..] == rest;
      }
    }
  }
}
