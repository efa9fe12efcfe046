/**
 * The plain-text files the scripts write with one URL per line and read back
 * with `[line.strip() for line in f if line.strip()]`.
 */
module TextFiles {
  import opened Text

  /** Where reading a file in text mode ends a line ("\n", and "\r" under universal newlines). */
  predicate IsBreak(c: char) {
    c == '\n' || c == '\r'
  }

  predicate NoBreaks(s: string) {
    forall k :: 0 <= k < |s| ==> !IsBreak(s[k])
  }

  /** The text `for u in lines: f.write(u + '\n')` leaves in a file. */
  function WriteLines(lines: seq<string>): string {
    if lines == [] then "" else WriteLines(lines[..|lines| - 1]) + lines[|lines| - 1] + "\n"
  }

  /** The text `"\n".join(lines)` leaves in a file. */
  function JoinLines(lines: seq<string>): string {
    if lines == [] then ""
    else if |lines| == 1 then lines[0]
    else JoinLines(lines[..|lines| - 1]) + "\n" + lines[|lines| - 1]
  }

  /** The text after the last break of `s` (all of `s` when it has none). */
  function Current(s: string): string {
    if s == [] then ""
    else if IsBreak(s[|s| - 1]) then ""
    else Current(s[..|s| - 1]) + [s[|s| - 1]]
  }

  /** The pieces of `s` that a break has closed, in order. */
  function Done(s: string): seq<string> {
    if s == [] then []
    else if IsBreak(s[|s| - 1]) then Done(s[..|s| - 1]) + [Current(s[..|s| - 1])]
    else Done(s[..|s| - 1])
  }

  /** The pieces of `s` between its line breaks: always one more than there are breaks. */
  function Pieces(s: string): seq<string> {
    Done(s) + [Current(s)]
  }

  /** No piece holds a break. */
  lemma {:induction false} PiecesHaveNoBreaks(s: string)
    ensures NoBreaks(Current(s))
    ensures forall k :: 0 <= k < |Done(s)| ==> NoBreaks(Done(s)[k])
    decreases |s|
  {
    if s != [] {
      var init, c := s[..|s| - 1], s[|s| - 1];
      PiecesHaveNoBreaks(init);
      if !IsBreak(c) {
        var cur := Current(init);
        assert Current(s) == cur + [c];
        assert forall j :: 0 <= j < |cur| ==> Current(s)[j] == cur[j];
      }
    }
  }

  /** Every piece stripped, the blank ones dropped, the order kept. */
  function Cleaned(pieces: seq<string>): (r: seq<string>)
    ensures |r| <= |pieces|
  {
    if pieces == [] then []
    else
      var init := Cleaned(pieces[..|pieces| - 1]);
      var t := Strip(pieces[|pieces| - 1]);
      if t == "" then init else init + [t]
  }

  /** What is read back is non-blank and already stripped. */
  lemma {:induction false} CleanedStripped(pieces: seq<string>)
    ensures forall k :: 0 <= k < |Cleaned(pieces)| ==>
      Cleaned(pieces)[k] != "" && Strip(Cleaned(pieces)[k]) == Cleaned(pieces)[k]
    decreases |pieces|
  {
    if pieces != [] {
      CleanedStripped(pieces[..|pieces| - 1]);
      StripIdempotent(pieces[|pieces| - 1]);
    }
  }

  /** `[line.strip() for line in f if line.strip()]` for a file that holds `text`. */
  function ReadLines(text: string): seq<string> {
    Cleaned(Pieces(text))
  }

  /** Text without breaks continues the last piece. */
  lemma {:induction false} PiecesExtend(s: string, t: string)
    requires NoBreaks(t)
    ensures Done(s + t) == Done(s) && Current(s + t) == Current(s) + t
    decreases |t|
  {
    if t == [] {
      assert s + t == s;
    } else {
      var t', c := t[..|t| - 1], t[|t| - 1];
      assert NoBreaks(t') by {
        forall k | 0 <= k < |t'| ensures !IsBreak(t'[k]) { assert t'[k] == t[k]; }
      }
      PiecesExtend(s, t');
      assert (s + t)[..|s + t| - 1] == s + t';
      assert t == t' + [c];
    }
  }

  /** A break closes the last piece and opens an empty one. */
  lemma PiecesBreak(s: string)
    ensures Done(s + "\n") == Done(s) + [Current(s)] && Current(s + "\n") == ""
  {
    assert (s + "\n")[..|s|] == s;
  }

  lemma {:induction false} WrittenPieces(lines: seq<string>)
    requires forall k :: 0 <= k < |lines| ==> NoBreaks(lines[k])
    ensures Done(WriteLines(lines)) == lines && Current(WriteLines(lines)) == ""
    decreases |lines|
  {
    if lines != [] {
      var init, x := lines[..|lines| - 1], lines[|lines| - 1];
      var w := WriteLines(init);
      assert forall k :: 0 <= k < |init| ==> init[k] == lines[k];
      WrittenPieces(init);
      PiecesExtend(w, x);
      assert "" + x == x;
      PiecesBreak(w + x);
      assert WriteLines(lines) == w + x + "\n";
      SplitLast(lines);
    }
  }

  /** A break and a line without breaks after a text add that line as its last piece. */
  lemma JoinStep(s: string, x: string)
    requires NoBreaks(x)
    ensures Done(s + "\n" + x) == Done(s) + [Current(s)] && Current(s + "\n" + x) == x
  {
    PiecesBreak(s);
    PiecesExtend(s + "\n", x);
    assert "" + x == x;
  }

  lemma {:induction false} JoinedPieces(lines: seq<string>)
    requires lines != []
    requires forall k :: 0 <= k < |lines| ==> NoBreaks(lines[k])
    ensures Done(JoinLines(lines)) == lines[..|lines| - 1] && Current(JoinLines(lines)) == lines[|lines| - 1]
    decreases |lines|
  {
    if |lines| == 1 {
      PiecesExtend("", lines[0]);
      assert "" + lines[0] == lines[0];
    } else {
      var init, x := lines[..|lines| - 1], lines[|lines| - 1];
      assert forall k :: 0 <= k < |init| ==> init[k] == lines[k];
      JoinedPieces(init);
      JoinStep(JoinLines(init), x);
      assert JoinLines(lines) == JoinLines(init) + "\n" + x;
      SplitLast(init);
    }
  }

  lemma SplitLast<T>(s: seq<T>)
    requires s != []
    ensures s[..|s| - 1] + [s[|s| - 1]] == s
  {
  }

  /** A blank last piece reads back as nothing. */
  lemma CleanedBlank(pieces: seq<string>)
    ensures Cleaned(pieces + [""]) == Cleaned(pieces)
  {
    assert (pieces + [""])[..|pieces|] == pieces;
    assert Strip("") == "";
  }

  /** Reading back a file written line by line gives the stripped, non-blank lines in order. */
  lemma ReadWritten(lines: seq<string>)
    requires forall k :: 0 <= k < |lines| ==> NoBreaks(lines[k])
    ensures ReadLines(WriteLines(lines)) == Cleaned(lines)
  {
    WrittenPieces(lines);
    CleanedBlank(lines);
  }

  /** Reading back a file written with `"\n".join` gives the stripped, non-blank lines in order. */
  lemma ReadJoined(lines: seq<string>)
    requires forall k :: 0 <= k < |lines| ==> NoBreaks(lines[k])
    ensures ReadLines(JoinLines(lines)) == Cleaned(lines)
  {
    if lines != [] {
      JoinedPieces(lines);
      SplitLast(lines);
    } else {
      assert Pieces("") == [""];
    }
  }

  /** Lines that are non-blank and have no whitespace at their ends come back unchanged. */
  lemma {:induction false} CleanedKeeps(lines: seq<string>)
    requires forall k :: 0 <= k < |lines| ==> lines[k] != "" && Strip(lines[k]) == lines[k]
    ensures Cleaned(lines) == lines
    decreases |lines|
  {
    if lines != [] {
      var init := lines[..|lines| - 1];
      assert forall k :: 0 <= k < |init| ==> init[k] == lines[k];
      CleanedKeeps(init);
      SplitLast(lines);
    }
  }
}
