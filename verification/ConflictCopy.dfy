/** Names of conflict copies: `{stem} (conflict copy {timestamp}){ext}`. */
module ConflictCopy {
  import opened Prelude

  const DOT: char := '.'

  /** Position of the last dot, or -1. */
  function LastDot(s: string): (i: int)
    ensures -1 <= i < |s|
    ensures i >= 0 ==> s[i] == DOT
    ensures forall k :: i < k < |s| ==> s[k] != DOT
  {
    if s == [] then -1
    else if s[|s| - 1] == DOT then |s| - 1
    else LastDot(s[..|s| - 1])
  }

  /** A name that a path can end in. */
  predicate IsFileName(name: string) {
    name != "" && '/' !in name && name != "." && name != ".."
  }

  /** File stem, and the extension with its dot.  A dot in front does not start an
      extension; a dot at the end starts an empty one. */
  function SplitName(name: string): (r: (string, string))
    requires name != ""
    ensures r.0 + r.1 == name && r.0 != ""
    ensures r.1 == "" ==> forall k :: 0 < k < |name| ==> name[k] != DOT
    ensures r.1 != "" ==> r.1[0] == DOT && forall k :: 0 < k < |r.1| ==> r.1[k] != DOT
  {
    var i := LastDot(name);
    if i <= 0 then (name, "") else (name[..i], name[i..])
  }

  function Suffix(timestamp: string): string {
    " (conflict copy " + timestamp + ")"
  }

  /** The copy's name for the last component of a path; a path without one, such as
      the root or "..", is called "Untitled". */
  function ConflictCopyName(name: Option<string>, timestamp: string): string
    requires name.Some? ==> IsFileName(name.value)
  {
    if name.None? then "Untitled" + Suffix(timestamp)
    else
      var (stem, ext) := SplitName(name.value);
      stem + Suffix(timestamp) + ext
  }

  /* ---- Injectivity ---- */

  function Dots(s: string): nat {
    if s == [] then 0 else Dots(s[1..]) + if s[0] == DOT then 1 else 0
  }

  lemma {:induction false} DotsConcat(a: string, b: string)
    ensures Dots(a + b) == Dots(a) + Dots(b)
  {
    if a == [] {
      assert a + b == b;
    } else {
      assert (a + b)[1..] == a[1..] + b;
      DotsConcat(a[1..], b);
    }
  }

  lemma {:induction false} NoDots(s: string)
    requires forall k :: 0 <= k < |s| ==> s[k] != DOT
    ensures Dots(s) == 0
  {
    if s != [] {
      NoDots(s[1..]);
    }
  }

  /** A name without extension cannot give the same copy as a name with one. */
  lemma MixedDiffer(stem: string, stem': string, ext: string, suffix: string, suffix': string)
    requires stem != "" && stem' != "" && ext != ""
    requires forall k :: 0 < k < |stem| ==> stem[k] != DOT
    requires ext[0] == DOT && Dots(suffix) == Dots(suffix')
    ensures stem + suffix != stem' + suffix' + ext
  {
    DotsConcat(stem, suffix);
    DotsConcat(stem' + suffix', ext);
    DotsConcat(stem', suffix');
    NoDots(stem[1..]);
    assert (stem + suffix)[0] == stem[0] && (stem' + suffix' + ext)[0] == stem'[0];
  }

  lemma SameExtension(a: string, b: string, ext: string, ext': string)
    requires ext != "" && ext' != "" && ext[0] == DOT && ext'[0] == DOT
    requires forall k :: 0 < k < |ext| ==> ext[k] != DOT
    requires forall k :: 0 < k < |ext'| ==> ext'[k] != DOT
    requires a + ext == b + ext'
    ensures ext == ext' && a == b
  {
    var s := a + ext;
    assert s[|a|] == DOT && s[|b|] == DOT;
    assert forall k :: |a| < k < |s| ==> s[k] == ext[k - |a|];
    assert forall k :: |b| < k < |s| ==> s[k] == (b + ext')[k] == ext'[k - |b|];
    assert |a| == |b|;
    assert a == s[..|a|] == (b + ext')[..|b|] == b;
    assert ext == s[|a|..] == ext';
  }

  lemma SameStem(a: string, b: string, suffix: string, suffix': string)
    requires a + suffix == b + suffix' && |suffix| == |suffix'|
    ensures a == b && suffix == suffix'
  {
    assert a == (a + suffix)[..|a|] == (b + suffix')[..|b|] == b;
    assert suffix == (a + suffix)[|a|..] == (b + suffix')[|b|..] == suffix';
  }

  /** Timestamps of one format: as long as each other, and with as many dots. */
  predicate SameFormat(t: string, u: string) {
    |t| == |u| && Dots(t) == Dots(u)
  }

  lemma SameFormatAround(open: string, t: string, u: string, close: string)
    requires SameFormat(t, u)
    ensures SameFormat(open + t + close, open + u + close)
    ensures open + t + close == open + u + close ==> t == u
  {
    DotsConcat(open + t, close);
    DotsConcat(open, t);
    DotsConcat(open + u, close);
    DotsConcat(open, u);
    assert t == (open + t + close)[|open|..|open| + |t|] && u == (open + u + close)[|open|..|open| + |u|];
  }

  lemma SuffixTells(t: string, u: string)
    requires SameFormat(t, u)
    ensures SameFormat(Suffix(t), Suffix(u)) && (Suffix(t) == Suffix(u) ==> t == u)
  {
    SameFormatAround(" (conflict copy ", t, u, ")");
  }

  /** Copies of different files, or with different timestamps, have different names: dotfiles,
      trailing dots and names that already carry a suffix included. */
  lemma CopiesAreInjective(a: string, t: string, b: string, u: string)
    requires IsFileName(a) && IsFileName(b) && SameFormat(t, u)
    requires ConflictCopyName(Some(a), t) == ConflictCopyName(Some(b), u)
    ensures a == b && t == u
  {
    SuffixTells(t, u);
    var ((sa, ea), (sb, eb)) := (SplitName(a), SplitName(b));
    var x, y := Suffix(t), Suffix(u);
    assert ea == "" ==> sa == a && sa + x + ea == sa + x;
    assert eb == "" ==> sb == b && sb + y + eb == sb + y;
    if ea != "" && eb != "" {
      SameExtension(sa + x, sb + y, ea, eb);
      SameStem(sa, sb, x, y);
    } else if ea == "" && eb == "" {
      SameStem(sa, sb, x, y);
    } else if ea == "" {
      MixedDiffer(sa, sb, eb, x, y);
    } else {
      MixedDiffer(sb, sa, ea, y, x);
    }
  }

  /** For every timestamp, different file names get different copies. */
  lemma NamesAreInjective(a: string, b: string, timestamp: string)
    requires IsFileName(a) && IsFileName(b)
    requires ConflictCopyName(Some(a), timestamp) == ConflictCopyName(Some(b), timestamp)
    ensures a == b
  {
    CopiesAreInjective(a, timestamp, b, timestamp);
  }

  /** A nameless path shares its copy's name with the file "Untitled" only. */
  lemma NamelessCollidesIff(b: string, timestamp: string)
    requires IsFileName(b)
    ensures ConflictCopyName(None, timestamp) == ConflictCopyName(Some(b), timestamp) <==> b == "Untitled"
  {
    var u := "Untitled";
    assert IsFileName(u) && SplitName(u) == (u, "");
    assert u + Suffix(timestamp) + "" == u + Suffix(timestamp);
    if ConflictCopyName(None, timestamp) == ConflictCopyName(Some(b), timestamp) {
      NamesAreInjective(u, b, timestamp);
    }
  }

  const TEMP_SUFFIX: string := ".gdriver-tmp"

  /** The copy is neither the original nor the temporary file next to it. */
  lemma CopyIsNew(name: string, timestamp: string)
    requires IsFileName(name)
    ensures var copy := ConflictCopyName(Some(name), timestamp);
      copy != name && copy != name + TEMP_SUFFIX && |copy| == |name| + 17 + |timestamp|
  {
  }

  lemma SplitsAt(name: string, i: nat)
    requires 0 < i < |name| && name[i] == DOT && forall k :: i < k < |name| ==> name[k] != DOT
    ensures SplitName(name) == (name[..i], name[i..])
  {
    assert LastDot(name) == i;
  }

  /** An extension, several dots and a trailing dot. */
  lemma ExampleExtensions(t: string)
    ensures ConflictCopyName(Some("report.pdf"), t) == "report" + Suffix(t) + ".pdf"
    ensures ConflictCopyName(Some("a.tar.gz"), t) == "a.tar" + Suffix(t) + ".gz"
    ensures ConflictCopyName(Some("end."), t) == "end" + Suffix(t) + "."
  {
    SplitsAt("report.pdf", 6);
    assert "report.pdf"[..6] == "report" && "report.pdf"[6..] == ".pdf";
    SplitsAt("a.tar.gz", 5);
    assert "a.tar.gz"[..5] == "a.tar" && "a.tar.gz"[5..] == ".gz";
    SplitsAt("end.", 3);
    assert "end."[..3] == "end" && "end."[3..] == ".";
  }

  /** A dotfile and no dot at all. */
  lemma ExampleWithoutExtension(t: string)
    ensures ConflictCopyName(Some(".bashrc"), t) == ".bashrc (conflict copy " + t + ")"
    ensures ConflictCopyName(Some("README"), t) == "README (conflict copy " + t + ")"
  {
    assert SplitName(".bashrc") == (".bashrc", "") && SplitName("README") == ("README", "");
    assert ".bashrc" + (" (conflict copy " + t + ")") == ".bashrc (conflict copy " + t + ")";
    assert "README" + (" (conflict copy " + t + ")") == "README (conflict copy " + t + ")";
  }
}
