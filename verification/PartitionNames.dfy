/**
 Partition names: the last partition in an sfdisk listing of a device, and the number at the end of a name.
 */
module PartitionNames {
  import opened Common
  import opened Pagination

  /** unicode.IsSpace */
  predicate IsSpace(c: char) {
    || '\t' <= c <= '\r' || c == ' ' || c == '\U{0085}' || c == '\U{00A0}' || c == '\U{1680}' || '\U{2000}' <= c <= '\U{200A}'
    || c == '\U{2028}' || c == '\U{2029}' || c == '\U{202F}' || c == '\U{205F}' || c == '\U{3000}'
  }

  function TrimLeft(s: string): string {
    if s != "" && IsSpace(s[0]) then TrimLeft(s[1..]) else s
  }

  function TrimRight(s: string): string {
    if s != "" && IsSpace(s[|s| - 1]) then TrimRight(s[..|s| - 1]) else s
  }

  function Trim(s: string): string { TrimRight(TrimLeft(s)) }

  /** strings.Split on newline: always at least one line. */
  function Lines(s: string): (r: seq<string>)
    ensures r != []
  {
    if s == "" then [""]
    else
      var r := Lines(s[1..]);
      if s[0] == '\n' then [""] + r else [[s[0]] + r[0]] + r[1..]
  }

  ghost predicate AllSpace(s: string) { forall i :: 0 <= i < |s| ==> IsSpace(s[i]) }

  lemma {:induction false} TrimLeftDrops(s: string) returns (n: nat)
    ensures n <= |s| && AllSpace(s[..n]) && TrimLeft(s) == s[n..]
    ensures n < |s| ==> !IsSpace(s[n])
  {
    n := 0;
    if s != "" && IsSpace(s[0]) {
      n := TrimLeftDrops(s[1..]);
      assert s[..n + 1] == [s[0]] + s[1..][..n] && s[1..][n..] == s[n + 1..];
      n := n + 1;
    }
  }

  lemma {:induction false} TrimRightDrops(s: string) returns (n: nat)
    ensures n <= |s| && AllSpace(s[n..]) && TrimRight(s) == s[..n]
    ensures n > 0 ==> !IsSpace(s[n - 1])
  {
    n := |s|;
    if s != "" && IsSpace(s[|s| - 1]) {
      var front := s[..|s| - 1];
      n := TrimRightDrops(front);
      assert s[n..] == front[n..] + [s[|s| - 1]] && front[..n] == s[..n];
    }
  }

  lemma SliceOfSlice<T>(s: seq<T>, n: nat, m: nat)
    requires n + m <= |s|
    ensures s[n..][m..] == s[n + m..] && s[n..][..m] == s[n..n + m]
  {
  }

  /** r is the part of s from lo to hi, with nothing but white space around it and none at its ends. */
  ghost predicate IsCore(s: string, r: string, lo: nat, hi: nat) {
    && lo <= hi <= |s| && r == s[lo..hi] && AllSpace(s[..lo]) && AllSpace(s[hi..])
    && (lo < hi ==> !IsSpace(s[lo]) && !IsSpace(s[hi - 1]))
  }

  /** Trimming drops white space at both ends, all of it and nothing else. */
  lemma TrimDropsSpace(s: string) returns (lo: nat, hi: nat)
    ensures IsCore(s, Trim(s), lo, hi)
  {
    lo := TrimLeftDrops(s);
    var m := TrimRightDrops(s[lo..]);
    SliceOfSlice(s, lo, m);
    hi := lo + m;
    assert m > 0 ==> s[lo..][m - 1] == s[hi - 1];
  }

  ghost function Joined(lines: seq<string>): string
    requires lines != []
  {
    if |lines| == 1 then lines[0] else lines[0] + "\n" + Joined(lines[1..])
  }

  /** The lines are the text cut at its newlines: none contains one, and joined they are the text. */
  lemma {:induction false} LinesCutAtNewlines(s: string)
    ensures Joined(Lines(s)) == s
    ensures forall i :: 0 <= i < |Lines(s)| ==> '\n' !in Lines(s)[i]
  {
    if s != "" {
      LinesCutAtNewlines(s[1..]);
      var r := Lines(s[1..]);
      if s[0] == '\n' {
        assert Lines(s)[1..] == r;
      } else {
        assert Lines(s)[1..] == r[1..];
      }
      assert s == [s[0]] + s[1..];
    }
  }

  /** Whether a line, trimmed, starts with the device name. */
  predicate Matches(line: string, source: string) { source <= Trim(line) }

  /** Line i is the last one that matches. */
  ghost predicate IsLastMatch(lines: seq<string>, i: int, source: string) {
    && 0 <= i < |lines| && Matches(lines[i], source)
    && forall j :: i < j < |lines| ==> !Matches(lines[j], source)
  }

  /** The backward scan returns the last matching line, trimmed; an empty one counts as none. */
  method LastPartition(source: string, output: string) returns (r: Option<string>)
    ensures r.Some? ==> r.value != "" && exists i :: IsLastMatch(Lines(output), i, source) && r.value == Trim(Lines(output)[i])
    ensures r.None? <==>
      (forall i :: 0 <= i < |Lines(output)| ==> !Matches(Lines(output)[i], source))
      || (exists i :: IsLastMatch(Lines(output), i, source) && Trim(Lines(output)[i]) == "")
    ensures source != "" ==> (r.None? <==> forall i :: 0 <= i < |Lines(output)| ==> !Matches(Lines(output)[i], source))
  {
    var lines := Lines(output);
    var last := "";
    var i := |lines|;
    var found := false;
    while i > 0 && !found
      invariant 0 <= i <= |lines|
      invariant !found ==> last == "" && forall j :: i <= j < |lines| ==> !Matches(lines[j], source)
      invariant found ==> IsLastMatch(lines, i, source) && last == Trim(lines[i])
      decreases i, !found
    {
      i := i - 1;
      var partition := Trim(lines[i]);
      if source <= partition {
        last := partition;
        found := true;
      }
    }
    if found {
      assert IsLastMatch(lines, i, source);
      LastMatchIsUnique(lines, i, source);
    }
    return if last == "" then None else Some(last);
  }

  lemma LastMatchIsUnique(lines: seq<string>, i: int, source: string)
    requires IsLastMatch(lines, i, source)
    ensures forall j :: IsLastMatch(lines, j, source) ==> j == i
  {
  }

  /** r is the longest run of digits at the end of s. */
  ghost predicate IsNumberOf(s: string, r: string) {
    && |r| <= |s| && r == s[|s| - |r|..] && AllDigits(r)
    && (|r| < |s| ==> !IsDigit(s[|s| - |r| - 1]))
  }

  lemma NumberIsUnique(s: string, a: string, b: string)
    requires IsNumberOf(s, a) && IsNumberOf(s, b)
    ensures a == b
  {
  }

  /** The scan from the end returns the longest run of digits there, the whole string if it is all digits. */
  method ExtractPartitionNumber(partition: string) returns (r: string)
    ensures IsNumberOf(partition, r)
  {
    var i := |partition| - 1;
    while i >= 0
      invariant -1 <= i < |partition|
      invariant forall j :: i < j < |partition| ==> IsDigit(partition[j])
    {
      if partition[i] < '0' || partition[i] > '9' {
        return if i + 1 < |partition| then partition[i + 1..] else "";
      }
      i := i - 1;
    }
    return partition;
  }

  lemma NameAndNumber(source: string, k: nat)
    requires source != "" && !IsDigit(source[|source| - 1])
    ensures IsNumberOf(source + PrintNat(k), PrintNat(k))
  {
    PrintedDigits(k);
  }

  /**
   Round trip: if the last line that belongs to the device is the device name followed by k, and the name
   does not end in a digit, then the number extracted from the last partition is k, printed.
   */
  method RecoverPartitionNumber(source: string, output: string, ghost k: nat) returns (number: string)
    requires source != "" && !IsDigit(source[|source| - 1])
    requires exists i :: IsLastMatch(Lines(output), i, source) && Trim(Lines(output)[i]) == source + PrintNat(k)
    ensures number == PrintNat(k) && AllDigits(number) && DigitsValue(number) == k
  {
    ghost var i :| IsLastMatch(Lines(output), i, source) && Trim(Lines(output)[i]) == source + PrintNat(k);
    var partition := LastPartition(source, output);
    LastMatchIsUnique(Lines(output), i, source);
    assert Matches(Lines(output)[i], source);
    number := ExtractPartitionNumber(partition.value);
    NameAndNumber(source, k);
    NumberIsUnique(partition.value, number, PrintNat(k));
    PrintedDigits(k);
  }
}
