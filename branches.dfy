/**
 * Enumeration of the remote branches: each line of `git branch --remote` is
 * matched against the pattern `^ *origin/([^ ]*)$`, and the names captured,
 * except master, are the branches under audit.
 */
module Branches {
  import opened Wrappers

  const Origin: string := "origin/"

  /** k space characters. */
  function Spaces(k: nat): (s: string)
    ensures |s| == k && forall i :: 0 <= i < k ==> s[i] == ' '
  {
    seq(k, _ => ' ')
  }

  /**
   * The name captured from a line, if the line is some spaces, then
   * "origin/", then a name without spaces.  The class `[^ ]` also matches a
   * newline and `$` also matches before a final newline, so no other line
   * matches, newlines included.
   */
  function Match(s: string): (r: Option<string>)
    ensures r.Some? ==>
      ' ' !in r.value && |Origin| + |r.value| <= |s| &&
      s == Spaces(|s| - |Origin| - |r.value|) + Origin + r.value
  {
    if |s| > 0 && s[0] == ' ' then
      var r := Match(s[1..]);
      if r.Some? then
        assert Spaces(|s| - |Origin| - |r.value|) == [' '] + Spaces(|s| - 1 - |Origin| - |r.value|);
        r
      else
        r
    else if |Origin| <= |s| && s[..|Origin|] == Origin && ' ' !in s[|Origin|..] then
      assert s == Spaces(0) + Origin + s[|Origin|..];
      Some(s[|Origin|..])
    else
      None
  }

  /** Every space-free name behind any number of spaces and "origin/" is captured. */
  lemma {:induction false} MatchRoundTrip(k: nat, n: string)
    requires ' ' !in n
    ensures Match(Spaces(k) + Origin + n) == Some(n)
  {
    var s := Spaces(k) + Origin + n;
    if k == 0 {
      assert s == Origin + n;
      assert s[..|Origin|] == Origin && s[|Origin|..] == n;
    } else {
      assert s[1..] == Spaces(k - 1) + Origin + n;
      MatchRoundTrip(k - 1, n);
    }
  }

  /** A line whose text after "origin/" holds a space is not captured. */
  lemma {:induction false} MatchRejectsSpace(k: nat, n: string)
    requires ' ' in n
    ensures Match(Spaces(k) + Origin + n) == None
  {
    var s := Spaces(k) + Origin + n;
    if k == 0 {
      assert s == Origin + n;
      assert s[..|Origin|] == Origin && s[|Origin|..] == n;
    } else {
      assert s[1..] == Spaces(k - 1) + Origin + n;
      MatchRejectsSpace(k - 1, n);
    }
  }

  /** So the line `git branch --remote` prints for the symbolic ref HEAD is not a branch. */
  lemma MatchRejectsHeadLine()
    ensures Match("  " + Origin + "HEAD -> " + Origin + MasterName) == None
  {
    var n := "HEAD -> " + Origin + MasterName;
    assert n[4] == ' ';
    assert Spaces(2) == "  ";
    assert "  " + Origin + n == "  " + Origin + "HEAD -> " + Origin + MasterName;
    MatchRejectsSpace(2, n);
  }

  const MasterName: string := "master"

  /** The branch captured from a line, unless it is master: one name or none. */
  function Wanted(line: string): (w: seq<string>)
    ensures |w| <= 1 && MasterName !in w
    ensures w != [] <==> Match(line).Some? && Match(line).value != MasterName
    ensures w != [] ==> w[0] == Match(line).value
  {
    var m := Match(line);
    if m.Some? && m.value != MasterName then [m.value] else []
  }

  /**
   * The branches under audit: the names captured from the lines, in line
   * order, without master.
   */
  function OriginBranches(lines: seq<string>): (bs: seq<string>)
    ensures |bs| <= |lines|
    ensures MasterName !in bs
    ensures forall b :: b in bs ==> ' ' !in b
    ensures forall b :: b in bs ==> exists i :: 0 <= i < |lines| && Match(lines[i]) == Some(b)
    ensures forall i :: 0 <= i < |lines| && Match(lines[i]).Some? && Match(lines[i]).value != MasterName ==>
      Match(lines[i]).value in bs
  {
    if lines == [] then []
    else
      var rest := OriginBranches(lines[1..]);
      var bs := Wanted(lines[0]) + rest;
      assert forall b :: b in bs ==> exists i :: 0 <= i < |lines| && Match(lines[i]) == Some(b) by {
        forall b | b in bs ensures exists i :: 0 <= i < |lines| && Match(lines[i]) == Some(b) {
          if b !in Wanted(lines[0]) {
            var j :| 0 <= j < |lines[1..]| && Match(lines[1..][j]) == Some(b);
            assert Match(lines[j + 1]) == Some(b);
          } else {
            assert Match(lines[0]) == Some(b);
          }
        }
      }
      assert forall i :: 1 <= i < |lines| ==> lines[i] == lines[1..][i - 1];
      bs
  }

  /** Enumeration distributes over the lines: branches come out in line order. */
  lemma {:induction false} OriginBranchesAppend(a: seq<string>, b: seq<string>)
    ensures OriginBranches(a + b) == OriginBranches(a) + OriginBranches(b)
  {
    if a != [] {
      calc {
        OriginBranches(a + b);
        { assert (a + b)[0] == a[0] && (a + b)[1..] == a[1..] + b; }
        Wanted(a[0]) + OriginBranches(a[1..] + b);
        { OriginBranchesAppend(a[1..], b); }
        Wanted(a[0]) + (OriginBranches(a[1..]) + OriginBranches(b));
      }
    } else {
      assert a + b == b;
    }
  }

  /** A single line contributes its captured name, unless that is master. */
  lemma OriginBranchesSingle(line: string)
    ensures OriginBranches([line]) ==
      if Match(line).Some? && Match(line).value != MasterName then [Match(line).value] else []
  {
  }
}
