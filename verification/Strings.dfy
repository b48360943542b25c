/** String order, line splitting and case folding shared by the models. */
module Strings {

  /** Byte-wise string order. */
  predicate StrLess(a: string, b: string) {
    b != "" && (a == "" || a[0] < b[0] || (a[0] == b[0] && StrLess(a[1..], b[1..])))
  }

  lemma {:induction false} NotLessThanItself(a: string)
    ensures !StrLess(a, a)
  {
    if a != "" { NotLessThanItself(a[1..]); }
  }

  lemma {:induction false} StrLessTransitive(a: string, b: string, c: string)
    requires StrLess(a, b) && StrLess(b, c)
    ensures StrLess(a, c)
  {
    if a != "" && a[0] == b[0] == c[0] { StrLessTransitive(a[1..], b[1..], c[1..]); }
  }

  lemma {:induction false} StrLessTotal(a: string, b: string)
    ensures StrLess(a, b) || a == b || StrLess(b, a)
  {
    if a != "" && b != "" && a[0] == b[0] {
      StrLessTotal(a[1..], b[1..]);
      assert a == [a[0]] + a[1..] && b == [b[0]] + b[1..];
    }
  }

  function LowerChar(c: char): char {
    if 'A' <= c <= 'Z' then (c as int - 'A' as int + 'a' as int) as char else c
  }

  /** ASCII case folding: the stored hashes are hexadecimal. */
  function Lower(s: string): (r: string)
    ensures |r| == |s| && forall i :: 0 <= i < |s| ==> r[i] == LowerChar(s[i])
  {
    if s == "" then "" else [LowerChar(s[0])] + Lower(s[1..])
  }

  /** The same letter, in either case. */
  predicate SameLetter(a: char, b: char) {
    || a == b
    || ('A' <= a <= 'Z' && b as int == a as int + 32)
    || ('A' <= b <= 'Z' && a as int == b as int + 32)
  }

  /** Lowercasing identifies exactly the spellings that differ in case only. */
  lemma {:induction false} LowerIff(s: string, t: string)
    ensures Lower(s) == Lower(t) <==> |s| == |t| && forall i :: 0 <= i < |s| ==> SameLetter(s[i], t[i])
  {
    hide Lower, LowerChar, SameLetter;
    if |s| == |t| {
      forall i | 0 <= i < |s| ensures Lower(s)[i] == Lower(t)[i] <==> SameLetter(s[i], t[i]) {
        LowerCharIff(s[i], t[i]);
      }
    }
  }

  lemma LowerCharIff(a: char, b: char)
    ensures LowerChar(a) == LowerChar(b) <==> SameLetter(a, b)
  {
  }

  lemma LowerIdempotent(s: string)
    ensures Lower(Lower(s)) == Lower(s)
  {
  }

  /** The White_Space property of the Unicode standard. */
  predicate IsSpace(c: char) {
    var n := c as int;
    || 0x9 <= n <= 0xD || n == 0x20 || n == 0x85 || n == 0xA0 || n == 0x1680 || 0x2000 <= n <= 0x200A
    || n == 0x2028 || n == 0x2029 || n == 0x202F || n == 0x205F || n == 0x3000
  }

  function Trim(s: string): string
    decreases |s|
  {
    if s != "" && IsSpace(s[0]) then Trim(s[1..])
    else if s != "" && IsSpace(s[|s| - 1]) then Trim(s[..|s| - 1])
    else s
  }

  predicate IsHex(c: char) { '0' <= c <= '9' || 'a' <= c <= 'f' }

  /** A SHA-256 digest in lowercase hexadecimal. */
  predicate IsDigest(s: string) { |s| == 64 && forall i :: 0 <= i < 64 ==> IsHex(s[i]) }

  /** How far an append gets before the I/O fails. */
  datatype Io = Works | FailsAfter(chars: nat)

  /** What reaches the file when a line is appended. */
  function Written(line: string, io: Io): string {
    if io.FailsAfter? && io.chars < |line| then line[..io.chars] else line
  }

  // ---- lines of a text file ----

  /** A text cut at its newlines: the finished lines, and what follows the last one. */
  datatype Cut = Cut(done: seq<string>, tail: string)

  function CutLines(text: string): Cut {
    if text == "" then Cut([], "")
    else
      var c, rest := text[|text| - 1], CutLines(text[..|text| - 1]);
      if c == '\n' then Cut(rest.done + [rest.tail], "") else Cut(rest.done, rest.tail + [c])
  }

  /** A line as the reader sees it: without a trailing carriage return. */
  function Chomp(line: string): string {
    if line != "" && line[|line| - 1] == '\r' then line[..|line| - 1] else line
  }

  function ChompAll(lines: seq<string>): (r: seq<string>)
    ensures |r| == |lines| && forall i :: 0 <= i < |lines| ==> r[i] == Chomp(lines[i])
  {
    if lines == [] then [] else ChompAll(lines[..|lines| - 1]) + [Chomp(lines[|lines| - 1])]
  }

  /** Every line, the last one with or without its newline. */
  function Lines(text: string): seq<string> {
    var cut := CutLines(text);
    ChompAll(if cut.tail == "" then cut.done else cut.done + [cut.tail])
  }

  lemma CutSnoc(text: string, c: char)
    ensures CutLines(text + [c]) == (
      var cut := CutLines(text);
      if c == '\n' then Cut(cut.done + [cut.tail], "") else Cut(cut.done, cut.tail + [c]))
  {
    assert (text + [c])[..|text|] == text;
  }

  /** Appending characters other than newlines extends the tail. */
  lemma {:induction false} CutAppend(text: string, more: string)
    requires '\n' !in more
    ensures CutLines(text + more) == Cut(CutLines(text).done, CutLines(text).tail + more)
  {
    hide CutLines;
    if more == "" {
      assert text + more == text && CutLines(text).tail + more == CutLines(text).tail;
    } else {
      var n := |more| - 1;
      CutAppend(text, more[..n]);
      CutSnoc(text + more[..n], more[n]);
      assert text + more == text + more[..n] + [more[n]];
      assert more == more[..n] + [more[n]];
      assert CutLines(text).tail + more == CutLines(text).tail + more[..n] + [more[n]];
    }
  }

  /** Appending a whole line finishes whatever was open. */
  lemma CutAppendLine(text: string, line: string)
    requires '\n' !in line
    ensures CutLines(text + line + "\n") == Cut(CutLines(text).done + [CutLines(text).tail + line], "")
  {
    CutAppend(text, line);
    CutSnoc(text + line, '\n');
  }
}
