/** The append-only status log with one rolled generation (src/jobs.rs). */
module StatusLog {
  import opened Options
  import opened Strings

  /** The two files of a job; None is a file that does not exist. */
  class StatusFiles {
    var current: Option<string>
    var rolled: Option<string>
    const cap: nat

    constructor (cap: nat)
      ensures current == None && rolled == None && this.cap == cap
    {
      current, rolled := None, None;
      this.cap := cap;
    }

    /** Roll over once the current file has reached the cap; a failed rename is
        not an error. */
    method RotateStatusWithCap(renameOk: bool) returns (rotated: bool)
      modifies this
      ensures Files(current, rolled) == Rotated(old(Files(current, rolled)), cap, renameOk)
      ensures rotated <==> Rotates(old(Files(current, rolled)), cap, renameOk)
    {
      if cap == 0 {
        return false;
      }
      if current.None? {
        return false;
      }
      if |current.value| < cap {
        return false;
      }
      if !renameOk {
        return false;
      }
      rolled, current := current, None;
      return true;
    }

    /** Rotate if due, then append one line, or as much of it as can be written. */
    method AppendStatus(w: Write) returns (ok: bool)
      modifies this
      ensures Files(current, rolled) == Appended(old(Files(current, rolled)), cap, w)
      ensures ok <==> Bytes(w) == w.line + "\n"
    {
      var _ := RotateStatusWithCap(w.renameOk);
      current := Some(Text(current) + Bytes(w));
      ok := Bytes(w) == w.line + "\n";
    }

    /** Both generations, oldest first, blank lines dropped. */
    method ReadStatusLines() returns (lines: seq<string>)
      ensures lines == NonBlank(Lines(Text(rolled))) + NonBlank(Lines(Text(current)))
    {
      hide Lines, NonBlank;
      NoLines();
      lines := [];
      if rolled.Some? {
        lines := lines + NonBlank(Lines(rolled.value));
      }
      if current.Some? {
        lines := lines + NonBlank(Lines(current.value));
      }
    }
  }

  datatype Pair = Files(current: Option<string>, rolled: Option<string>)

  function Text(f: Option<string>): string { if f.Some? then f.value else "" }

  predicate Rotates(p: Pair, cap: nat, renameOk: bool) {
    cap != 0 && p.current.Some? && |p.current.value| >= cap && renameOk
  }

  function Rotated(p: Pair, cap: nat, renameOk: bool): Pair {
    if Rotates(p, cap, renameOk) then Files(None, p.current) else p
  }

  /** One append: the serialized line, whether a rename would succeed, and how far
      the write gets. */
  datatype Write = Write(line: string, renameOk: bool, io: Io)

  /** What reaches the file. */
  function Bytes(w: Write): string { Written(w.line + "\n", w.io) }

  function Appended(p: Pair, cap: nat, w: Write): Pair {
    var q := Rotated(p, cap, w.renameOk);
    Files(Some(Text(q.current) + Bytes(w)), q.rolled)
  }

  predicate IsBlank(line: string) { Trim(line) == "" }

  function NonBlank(lines: seq<string>): seq<string> {
    if lines == [] then []
    else NonBlank(lines[..|lines| - 1]) + (if IsBlank(lines[|lines| - 1]) then [] else [lines[|lines| - 1]])
  }

  lemma NoLines()
    ensures NonBlank(Lines("")) == []
  {
  }

  // ---- whole runs ----

  function After(cap: nat, ws: seq<Write>): Pair {
    if ws == [] then Files(None, None)
    else Appended(After(cap, ws[..|ws| - 1]), cap, ws[|ws| - 1])
  }

  /** How often the log was rolled over. */
  function Rollovers(cap: nat, ws: seq<Write>): nat {
    if ws == [] then 0
    else
      var rest := ws[..|ws| - 1];
      Rollovers(cap, rest) + (if Rotates(After(cap, rest), cap, ws[|ws| - 1].renameOk) then 1 else 0)
  }

  /** Everything ever appended. */
  function Everything(ws: seq<Write>): string {
    if ws == [] then "" else Everything(ws[..|ws| - 1]) + Bytes(ws[|ws| - 1])
  }

  function Kept(p: Pair): string { Text(p.rolled) + Text(p.current) }

  /** The files hold exactly the appends from k on, the rolled one those before j;
      something is missing in front exactly from the second rollover on. */
  ghost predicate HoldsLast(cap: nat, ws: seq<Write>, k: nat, j: nat) {
    && k <= j <= |ws|
    && Text(After(cap, ws).rolled) == Everything(ws[k..j])
    && Text(After(cap, ws).current) == Everything(ws[j..])
    && (After(cap, ws).rolled.None? <==> Rollovers(cap, ws) == 0)
    && (j == 0 <==> Rollovers(cap, ws) == 0)
    && (k == 0 <==> Rollovers(cap, ws) < 2)
    && (After(cap, ws).rolled.Some? ==> cap > 0 && |After(cap, ws).rolled.value| >= cap)
  }

  lemma SliceSnoc(rest: seq<Write>, w: Write, k: nat, j: nat)
    requires k <= j <= |rest|
    ensures (rest + [w])[k..j] == rest[k..j] && (rest + [w])[j..] == rest[j..] + [w]
    ensures (rest + [w])[j..|rest|] == rest[j..] && (rest + [w])[|rest|..] == [w]
  {
  }

  lemma EverythingNone()
    ensures Everything([]) == ""
  {
  }

  lemma EverythingSnoc(ws: seq<Write>, w: Write)
    ensures Everything(ws + [w]) == Everything(ws) + Bytes(w)
  {
    assert (ws + [w])[..|ws|] == ws;
  }

  lemma AfterSnoc(cap: nat, ws: seq<Write>, w: Write)
    ensures After(cap, ws + [w]) == Appended(After(cap, ws), cap, w)
    ensures Rollovers(cap, ws + [w]) == Rollovers(cap, ws) + (if Rotates(After(cap, ws), cap, w.renameOk) then 1 else 0)
    ensures Rotates(After(cap, ws), cap, w.renameOk) ==> ws != []
  {
    assert (ws + [w])[..|ws|] == ws;
  }

  lemma HoldsNone(cap: nat)
    ensures HoldsLast(cap, [], 0, 0)
  {
    var none: seq<Write> := [];
    assert none[0..0] == none && none[0..] == none;
  }

  /** Where the cuts lie after one more append. */
  lemma HoldsNext(cap: nat, rest: seq<Write>, w: Write, k: nat, j: nat)
    requires HoldsLast(cap, rest, k, j)
    ensures if Rotates(After(cap, rest), cap, w.renameOk) then HoldsLast(cap, rest + [w], j, |rest|)
            else HoldsLast(cap, rest + [w], k, j)
  {
    EverythingNone();
    hide Everything, Bytes, After, Rollovers;
    AfterSnoc(cap, rest, w);
    SliceSnoc(rest, w, k, j);
    if Rotates(After(cap, rest), cap, w.renameOk) {
      EverythingSnoc([], w);
      assert [] + [w] == [w];
    } else {
      EverythingSnoc(rest[j..], w);
    }
  }

  /** The two files together always hold a suffix of the run, cut between
      appends; and after a rotation the rolled one has reached the cap. */
  lemma {:induction false} FilesHoldSuffix(cap: nat, ws: seq<Write>) returns (k: nat, j: nat)
    ensures HoldsLast(cap, ws, k, j)
  {
    hide HoldsLast, After, Rollovers;
    if ws == [] {
      k, j := 0, 0;
      HoldsNone(cap);
    } else {
      var n := |ws| - 1;
      k, j := FilesHoldSuffix(cap, ws[..n]);
      assert ws == ws[..n] + [ws[n]];
      HoldsNext(cap, ws[..n], ws[n], k, j);
      if Rotates(After(cap, ws[..n]), cap, ws[n].renameOk) { k, j := j, n; }
    }
  }

  lemma {:induction false} EverythingConcat(a: seq<Write>, b: seq<Write>)
    ensures Everything(a + b) == Everything(a) + Everything(b)
  {
    EverythingNone();
    hide Everything, Bytes;
    if b == [] {
      assert a + b == a;
    } else {
      var n := |b| - 1;
      assert b == b[..n] + [b[n]] && a + b == a + b[..n] + [b[n]];
      EverythingConcat(a, b[..n]);
      EverythingSnoc(b[..n], b[n]);
      EverythingSnoc(a + b[..n], b[n]);
    }
  }

  lemma {:induction false} EverythingGrows(ws: seq<Write>)
    requires forall i :: 0 <= i < |ws| ==> Bytes(ws[i]) != ""
    ensures |Everything(ws)| >= |ws|
  {
    hide Bytes;
    if ws != [] { EverythingGrows(ws[..|ws| - 1]); }
  }

  /** What is kept is a suffix of everything appended, and at least cap bytes once
      there was a rollover. One rollover loses nothing; with no append empty,
      everything is kept if and only if there were fewer than two. */
  lemma KeptIsSuffix(cap: nat, ws: seq<Write>)
    ensures var p, all := After(cap, ws), Everything(ws);
            && |Kept(p)| <= |all| && Kept(p) == all[|all| - |Kept(p)|..]
            && (Rollovers(cap, ws) > 0 ==> |Kept(p)| >= cap > 0)
            && (Rollovers(cap, ws) < 2 ==> Kept(p) == all)
            && ((forall i :: 0 <= i < |ws| ==> Bytes(ws[i]) != "") ==> (Kept(p) == all <==> Rollovers(cap, ws) < 2))
  {
    hide Everything, After, Bytes, Rollovers;
    var k, j := FilesHoldSuffix(cap, ws);
    assert ws[k..j] + ws[j..] == ws[k..];
    EverythingConcat(ws[k..j], ws[j..]);
    assert ws[..k] + ws[k..] == ws;
    EverythingConcat(ws[..k], ws[k..]);
    if k == 0 {
      assert ws[0..] == ws;
    } else if forall i :: 0 <= i < |ws| ==> Bytes(ws[i]) != "" {
      EverythingGrows(ws[..k]);
    }
  }

  /** The size the cap is for: with working renames and lines that come to at most
      most characters, neither file ever reaches cap + most, over any run. */
  lemma {:induction false} FilesStaySmall(cap: nat, ws: seq<Write>, most: nat)
    requires cap > 0 && forall i :: 0 <= i < |ws| ==> ws[i].renameOk && |Bytes(ws[i])| <= most
    ensures |Text(After(cap, ws).current)| < cap + most && |Text(After(cap, ws).rolled)| < cap + most
  {
    hide Bytes;
    if ws != [] { FilesStaySmall(cap, ws[..|ws| - 1], most); }
  }

  /** A cap of zero, or renames that fail, keep everything in the one file. */
  lemma {:induction false} NothingRolls(cap: nat, ws: seq<Write>)
    requires cap == 0 || forall i :: 0 <= i < |ws| ==> !ws[i].renameOk
    ensures After(cap, ws).rolled.None? && Text(After(cap, ws).current) == Everything(ws)
  {
    hide Bytes;
    if ws != [] { NothingRolls(cap, ws[..|ws| - 1]); }
  }

  // ---- reading back ----

  /** Blank is nothing but white space. */
  lemma {:induction false} BlankIff(line: string)
    ensures IsBlank(line) <==> forall i :: 0 <= i < |line| ==> IsSpace(line[i])
    decreases |line|
  {
    hide IsSpace;
    if line != "" {
      if IsSpace(line[0]) {
        BlankIff(line[1..]);
        assert forall i :: 0 < i < |line| ==> line[i] == line[1..][i - 1];
        assert forall i :: 0 <= i < |line[1..]| ==> line[1..][i] == line[i + 1];
      } else if IsSpace(line[|line| - 1]) {
        BlankIff(line[..|line| - 1]);
        assert line[..|line| - 1][0] == line[0];
      }
    }
  }

  lemma CountSnoc(lines: seq<string>, last: string, line: string)
    ensures multiset(lines + [last])[line] == multiset(lines)[line] + (if line == last then 1 else 0)
  {
  }

  /** Exactly the lines that are not blank are read, each as often as it is there. */
  lemma {:induction false} NonBlankIff(lines: seq<string>, line: string)
    ensures multiset(NonBlank(lines))[line] == (if IsBlank(line) then 0 else multiset(lines)[line])
  {
    hide IsBlank;
    if lines != [] {
      var rest, last := lines[..|lines| - 1], lines[|lines| - 1];
      NonBlankIff(rest, line);
      assert lines == rest + [last];
      CountSnoc(rest, last, line);
      CountSnoc(NonBlank(rest), last, line);
      assert NonBlank(lines) == if IsBlank(last) then NonBlank(rest) else NonBlank(rest) + [last];
    }
  }

  /** A serialized update, written whole: one line, not blank, no carriage return at
      its end. */
  ghost predicate Serialized(w: Write) {
    w.io == Works && '\n' !in w.line && !IsBlank(w.line) && Chomp(w.line) == w.line
  }

  function LinesOf(ws: seq<Write>): (r: seq<string>)
    ensures |r| == |ws| && forall i :: 0 <= i < |ws| ==> r[i] == ws[i].line
  {
    if ws == [] then [] else LinesOf(ws[..|ws| - 1]) + [ws[|ws| - 1].line]
  }

  lemma {:induction false} CutOfEverything(ws: seq<Write>)
    requires forall i :: 0 <= i < |ws| ==> Serialized(ws[i])
    ensures CutLines(Everything(ws)) == Cut(LinesOf(ws), "")
  {
    hide CutLines, IsBlank, Chomp;
    if ws == [] {
      CutNothing();
    } else {
      var n := |ws| - 1;
      CutOfEverything(ws[..n]);
      CutAppendLine(Everything(ws[..n]), ws[n].line);
      assert Everything(ws[..n]) + (ws[n].line + "\n") == Everything(ws[..n]) + ws[n].line + "\n";
      assert "" + ws[n].line == ws[n].line;
    }
  }

  lemma CutNothing()
    ensures CutLines("") == Cut([], "")
  {
  }

  lemma {:induction false} AllNonBlank(lines: seq<string>)
    requires forall i :: 0 <= i < |lines| ==> !IsBlank(lines[i])
    ensures NonBlank(lines) == lines
  {
    hide IsBlank;
    if lines != [] {
      AllNonBlank(lines[..|lines| - 1]);
      assert lines == lines[..|lines| - 1] + [lines[|lines| - 1]];
    }
  }

  lemma ReadsBack(ws: seq<Write>)
    requires forall i :: 0 <= i < |ws| ==> Serialized(ws[i])
    ensures NonBlank(Lines(Everything(ws))) == LinesOf(ws)
  {
    hide CutLines, IsBlank, Everything, Chomp;
    CutOfEverything(ws);
    assert ChompAll(LinesOf(ws)) == LinesOf(ws);
    AllNonBlank(LinesOf(ws));
  }

  /** Reading returns exactly the most recent appends, in order, never a torn or
      reordered line; all of them if and only if there were fewer than two rollovers. */
  lemma ReadIsRecentHistory(cap: nat, ws: seq<Write>) returns (k: nat)
    requires forall i :: 0 <= i < |ws| ==> Serialized(ws[i])
    ensures k <= |ws|
    ensures var p := After(cap, ws);
            NonBlank(Lines(Text(p.rolled))) + NonBlank(Lines(Text(p.current))) == LinesOf(ws)[k..]
    ensures k == 0 <==> Rollovers(cap, ws) < 2
  {
    hide Everything, After, Lines, NonBlank, Serialized, Rollovers;
    var j: nat;
    k, j := FilesHoldSuffix(cap, ws);
    ReadsBack(ws[k..j]);
    ReadsBack(ws[j..]);
    assert LinesOf(ws[k..j]) + LinesOf(ws[j..]) == LinesOf(ws)[k..];
  }
}
