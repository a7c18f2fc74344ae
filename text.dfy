/** The few Ruby String operations the trackers rely on, over `seq<char>`. */
module Text {

  /** The characters `String#strip` removes: null, \t, \n, \v, \f, \r and space. */
  predicate IsSpace(c: char) {
    c == '\0' || c == '\t' || c == '\n' || c == '\U{B}' || c == '\U{C}' || c == '\r' || c == ' '
  }

  predicate AllSpace(s: string) {
    forall i :: 0 <= i < |s| ==> IsSpace(s[i])
  }

  function StripLeft(s: string): (r: string)
    ensures |r| <= |s| && r == s[|s| - |r|..]
    ensures r != [] ==> !IsSpace(r[0])
    ensures AllSpace(s[..|s| - |r|])
  {
    if s != [] && IsSpace(s[0]) then StripLeft(s[1..]) else s
  }

  function StripRight(s: string): (r: string)
    ensures |r| <= |s| && r == s[..|r|]
    ensures r != [] ==> !IsSpace(r[|r| - 1])
    ensures AllSpace(s[|r|..])
  {
    if s != [] && IsSpace(s[|s| - 1]) then StripRight(s[..|s| - 1]) else s
  }

  /** `String#strip`: leading and trailing whitespace removed. */
  function Strip(s: string): string {
    StripRight(StripLeft(s))
  }

  /** `s.strip.empty?` holds exactly when every character of `s` is whitespace. */
  lemma StripEmptyIffBlank(s: string)
    ensures Strip(s) == [] <==> AllSpace(s)
  {
  }

  /** What is left after `strip` of a non-blank string is itself non-blank. */
  lemma StripNotBlank(s: string)
    requires !AllSpace(s)
    ensures !AllSpace(Strip(s))
  {
    StripEmptyIffBlank(s);
    var r := Strip(s);
    assert !IsSpace(r[|r| - 1]);
  }

  /** `s.start_with?(prefix)`. */
  predicate StartsWith(s: string, prefix: string) {
    |prefix| <= |s| && s[..|prefix|] == prefix
  }

  /** `sub` occurs in `s` starting at index `i`. */
  predicate OccursAt(s: string, sub: string, i: int) {
    0 <= i <= |s| - |sub| && s[i..i + |sub|] == sub
  }

  /** `s.include?(sub)`, computed by a left-to-right scan. */
  function Includes(s: string, sub: string): bool
    decreases |s|
  {
    if StartsWith(s, sub) then true
    else if |s| <= |sub| then false
    else Includes(s[1..], sub)
  }

  lemma SliceOfTail(s: string, i: nat, j: nat)
    requires 1 <= i <= j <= |s|
    ensures s[i..j] == s[1..][i - 1..j - 1]
  {
    forall k | 0 <= k < j - i ensures s[i..j][k] == s[1..][i - 1..j - 1][k] {
      assert s[i..j][k] == s[i + k];
    }
  }

  lemma {:induction false} IncludesIff(s: string, sub: string)
    ensures Includes(s, sub) <==> exists i :: OccursAt(s, sub, i)
    decreases |s|
  {
    if StartsWith(s, sub) {
      assert OccursAt(s, sub, 0);
    } else if |s| > |sub| {
      IncludesIff(s[1..], sub);
      forall i | 1 <= i && OccursAt(s, sub, i) ensures OccursAt(s[1..], sub, i - 1) {
        SliceOfTail(s, i, i + |sub|);
      }
      if Includes(s[1..], sub) {
        var i :| OccursAt(s[1..], sub, i);
        SliceOfTail(s, i + 1, i + 1 + |sub|);
        assert OccursAt(s, sub, i + 1);
      }
    }
  }

  /** `s.split(sep)` for a one-character separator, keeping every field. */
  function Split(s: string, sep: char): (parts: seq<string>)
    ensures |parts| > 0
    ensures forall p :: p in parts ==> sep !in p
    decreases |s|
  {
    if sep !in s then [s]
    else
      var i := IndexOf(s, sep);
      [s[..i]] + Split(s[i + 1..], sep)
  }

  /** Ruby's `split` drops the empty fields at the end of the result. */
  function DropTrailingEmpty(parts: seq<string>): (r: seq<string>)
    ensures |r| <= |parts| && r == parts[..|r|]
    ensures r != [] ==> r[|r| - 1] != ""
    ensures forall k :: |r| <= k < |parts| ==> parts[k] == ""
  {
    if parts == [] then []
    else if parts[|parts| - 1] == "" then DropTrailingEmpty(parts[..|parts| - 1])
    else parts
  }

  /** `s.split(sep)` as Ruby computes it: the fields, less the trailing empty ones. */
  function RubySplit(s: string, sep: char): (fields: seq<string>)
    ensures forall p :: p in fields ==> sep !in p
    ensures fields != [] ==> fields[|fields| - 1] != ""
  {
    var parts := Split(s, sep);
    var fields := DropTrailingEmpty(parts);
    assert forall k :: 0 <= k < |fields| ==> fields[k] == parts[k] && parts[k] in parts;
    fields
  }

  function IndexOf(s: string, c: char): (i: nat)
    requires c in s
    ensures i < |s| && s[i] == c && c !in s[..i]
  {
    if s[0] == c then 0 else 1 + IndexOf(s[1..], c)
  }

  function Join(parts: seq<string>, sep: char): string
    requires |parts| > 0
  {
    if |parts| == 1 then parts[0] else parts[0] + [sep] + Join(parts[1..], sep)
  }

  /** Splitting loses nothing: joining the fields with the separator gives the input back. */
  lemma {:induction false} JoinSplit(s: string, sep: char)
    ensures Join(Split(s, sep), sep) == s
    decreases |s|
  {
    if sep in s {
      var i := IndexOf(s, sep);
      JoinSplit(s[i + 1..], sep);
      assert s == s[..i] + [sep] + s[i + 1..];
    }
  }

  /** Fields free of the separator come back out of a join unchanged. */
  lemma {:induction false} SplitJoin(parts: seq<string>, sep: char)
    requires |parts| > 0
    requires forall p :: p in parts ==> sep !in p
    ensures Split(Join(parts, sep), sep) == parts
  {
    if |parts| > 1 {
      SplitJoin(parts[1..], sep);
      var s := Join(parts, sep);
      assert s == parts[0] + [sep] + Join(parts[1..], sep);
      assert s[|parts[0]|] == sep;
      var i := IndexOf(s, sep);
      assert s[..|parts[0]|] == parts[0];
      assert parts[0] in parts;
      assert i == |parts[0]|;
      assert s[i + 1..] == Join(parts[1..], sep);
    }
  }

  /** A join of separator-free fields, the last one non-empty, splits back into those fields. */
  lemma RubySplitJoin(parts: seq<string>, sep: char)
    requires |parts| > 0 && parts[|parts| - 1] != ""
    requires forall p :: p in parts ==> sep !in p
    ensures RubySplit(Join(parts, sep), sep) == parts
  {
    SplitJoin(parts, sep);
  }

  /** `s.chomp`: one trailing line terminator ("\r\n", "\n" or "\r") removed. */
  function Chomp(s: string): (r: string)
    ensures |r| <= |s| && r == s[..|r|]
    ensures s[|r|..] in {"", "\n", "\r", "\r\n"}
    ensures |s| >= 2 && s[|s| - 2..] == "\r\n" ==> |r| == |s| - 2
    ensures |s| >= 1 && (s[|s| - 1] == '\n' || s[|s| - 1] == '\r') ==> |r| < |s|
    ensures |s| >= 1 && s[|s| - 1] != '\n' && s[|s| - 1] != '\r' ==> r == s
  {
    if |s| >= 2 && s[|s| - 2..] == "\r\n" then s[..|s| - 2]
    else if |s| >= 1 && (s[|s| - 1] == '\n' || s[|s| - 1] == '\r') then
      assert s[|s| - 1..] == [s[|s| - 1]];
      s[..|s| - 1]
    else
      assert s[|s|..] == "";
      s
  }

  /** Appending whitespace never changes what `strip` keeps. */
  lemma StripAppendSpace(x: string, c: char)
    requires IsSpace(c)
    ensures Strip(x + [c]) == Strip(x)
  {
    var l := StripLeft(x);
    if l == [] {
      assert AllSpace(x + [c]);
      AllSpaceStripsLeft(x + [c]);
    } else {
      StripLeftAppend(x, c);
      assert StripLeft(x + [c]) == l + [c];
      assert (l + [c])[..|l + [c]| - 1] == l;
    }
  }

  lemma {:induction false} AllSpaceStripsLeft(s: string)
    requires AllSpace(s)
    ensures StripLeft(s) == []
    decreases |s|
  {
    if s != [] {
      AllSpaceStripsLeft(s[1..]);
    }
  }

  lemma {:induction false} StripLeftAppend(x: string, c: char)
    requires StripLeft(x) != []
    ensures StripLeft(x + [c]) == StripLeft(x) + [c]
    decreases |x|
  {
    assert x != [];
    assert (x + [c])[0] == x[0];
    if IsSpace(x[0]) {
      assert (x + [c])[1..] == x[1..] + [c];
      assert StripLeft(x) == StripLeft(x[1..]);
      assert StripLeft(x + [c]) == StripLeft(x[1..] + [c]);
      StripLeftAppend(x[1..], c);
    } else {
      assert StripLeft(x) == x;
    }
  }

  /** `line.chomp.strip` is `line.strip`: chomp only removes characters strip removes anyway. */
  lemma StripChomp(s: string)
    ensures Strip(Chomp(s)) == Strip(s)
  {
    if |s| >= 2 && s[|s| - 2..] == "\r\n" {
      var r := s[..|s| - 2];
      assert Chomp(s) == r;
      assert s[|s| - 2] == '\r' && s[|s| - 1] == '\n' by {
        assert s[|s| - 2..][0] == s[|s| - 2] && s[|s| - 2..][1] == s[|s| - 1];
      }
      assert s == (r + ['\r']) + ['\n'];
      StripAppendSpace(r + ['\r'], '\n');
      StripAppendSpace(r, '\r');
    } else if |s| >= 1 && (s[|s| - 1] == '\n' || s[|s| - 1] == '\r') {
      var r := s[..|s| - 1];
      assert Chomp(s) == r;
      assert s == r + [s[|s| - 1]];
      StripAppendSpace(r, s[|s| - 1]);
    }
  }

  function Lower(c: char): char {
    if 'A' <= c <= 'Z' then (c as int + 32) as char else c
  }

  /**
   * `s.downcase`, for the ASCII letters.  The trackers only compare the result
   * with lower-case ASCII words, which no other character downcases to.
   */
  function Downcase(s: string): (r: string)
    ensures |r| == |s|
    ensures forall i :: 0 <= i < |s| ==> r[i] == Lower(s[i])
  {
    if s == [] then [] else [Lower(s[0])] + Downcase(s[1..])
  }
}
