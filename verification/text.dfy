/** String helpers for the rule text: the reader text assembled line by line,
    the comma-joined synonym groups, and Java's case-insensitive comparison. */
module Text {

  /** Every line followed by the separator, as a `StringBuilder` loop writes them. */
  function JoinLines(lines: seq<string>, sep: string): string
  {
    if lines == [] then "" else lines[0] + sep + JoinLines(lines[1..], sep)
  }

  /** Appending one more line to the builder extends the text by that line and a separator. */
  lemma {:induction false} JoinLinesSnoc(lines: seq<string>, line: string, sep: string)
    ensures JoinLines(lines + [line], sep) == JoinLines(lines, sep) + line + sep
  {
    if lines == [] {
      assert lines + [line] == [line];
      assert JoinLines([line], sep) == line + sep + "";
    } else {
      assert (lines + [line])[1..] == lines[1..] + [line];
      JoinLinesSnoc(lines[1..], line, sep);
    }
  }

  /** The first line of `text` (up to the terminator `c`) and the text after it. */
  function TakeLine(text: string, c: char): (split: (string, string))
    ensures |split.1| <= |text|
    ensures text != [] ==> |split.1| < |text|
  {
    if text == [] then ("", "")
    else if text[0] == c then ("", text[1..])
    else
      var (line, rest) := TakeLine(text[1..], c);
      ([text[0]] + line, rest)
  }

  /** The lines a line-oriented reader sees in `text` when lines end with `c`. */
  function ReadLines(text: string, c: char): seq<string>
    decreases |text|
  {
    if text == [] then []
    else
      var (line, rest) := TakeLine(text, c);
      [line] + ReadLines(rest, c)
  }

  lemma {:induction false} TakeLineOf(line: string, c: char, rest: string)
    requires c !in line
    ensures TakeLine(line + [c] + rest, c) == (line, rest)
  {
    if line == [] {
      assert line + [c] + rest == [c] + rest;
    } else {
      assert (line + [c] + rest)[0] == line[0];
      assert (line + [c] + rest)[1..] == line[1..] + [c] + rest;
      TakeLineOf(line[1..], c, rest);
      assert [line[0]] + line[1..] == line;
    }
  }

  /** Reading back the joined text yields exactly the joined lines, one per
      separator, provided no line contains the one-character separator. */
  lemma {:induction false} ReadJoinedLines(lines: seq<string>, c: char)
    requires forall i :: 0 <= i < |lines| ==> c !in lines[i]
    ensures ReadLines(JoinLines(lines, [c]), c) == lines
  {
    if lines != [] {
      var rest := JoinLines(lines[1..], [c]);
      assert JoinLines(lines, [c]) == lines[0] + [c] + rest;
      TakeLineOf(lines[0], c, rest);
      ReadJoinedLines(lines[1..], c);
    }
  }

  /** The words separated by `sep`. */
  function Join(words: seq<string>, sep: string): string
  {
    if words == [] then ""
    else if |words| == 1 then words[0]
    else Join(words[..|words| - 1], sep) + sep + words[|words| - 1]
  }

  /** What `sb.append(sep).append(word)` leaves in the builder after every word. */
  function Prefixed(words: seq<string>, sep: string): string
  {
    if words == [] then "" else Prefixed(words[..|words| - 1], sep) + sep + words[|words| - 1]
  }

  /** `String.replaceFirst` with a one-character literal pattern and an empty replacement. */
  function ReplaceFirst(s: string, c: char): string
  {
    if s == [] then []
    else if s[0] == c then s[1..]
    else [s[0]] + ReplaceFirst(s[1..], c)
  }

  lemma {:induction false} PrefixedIsSepJoin(words: seq<string>, sep: string)
    requires words != []
    ensures Prefixed(words, sep) == sep + Join(words, sep)
  {
    var init, last := words[..|words| - 1], words[|words| - 1];
    if |words| == 1 {
      assert init == [];
    } else {
      PrefixedIsSepJoin(init, sep);
      calc {
        Prefixed(words, sep);
        Prefixed(init, sep) + sep + last;
        (sep + Join(init, sep)) + sep + last;
        sep + (Join(init, sep) + sep + last);
        sep + Join(words, sep);
      }
    }
  }

  /** Dropping the first comma of the comma-prefixed builder gives the comma join. */
  lemma StripLeadingComma(words: seq<string>)
    ensures ReplaceFirst(Prefixed(words, ","), ',') == Join(words, ",")
  {
    if words != [] {
      PrefixedIsSepJoin(words, ",");
      assert Prefixed(words, ",")[0] == ',';
      assert Prefixed(words, ",")[1..] == Join(words, ",");
    }
  }

  /** A join begins with its first word, so it is non-empty when that word is. */
  lemma {:induction false} JoinStartsWithFirst(words: seq<string>, sep: string)
    requires words != []
    ensures words[0] <= Join(words, sep)
    ensures |Join(words, sep)| >= |words[0]|
  {
    if |words| > 1 {
      var init := words[..|words| - 1];
      JoinStartsWithFirst(init, sep);
      assert init[0] == words[0];
      assert Join(words, sep) == Join(init, sep) + sep + words[|words| - 1];
    }
  }

  /** ASCII lower-casing of one character. */
  function LowerAscii(c: char): char
  {
    if 'A' <= c <= 'Z' then (c as int + 32) as char else c
  }

  /** `String.equalsIgnoreCase`, with ASCII case folding. */
  predicate EqualsIgnoreCase(a: string, b: string)
  {
    |a| == |b| && forall i :: 0 <= i < |a| ==> LowerAscii(a[i]) == LowerAscii(b[i])
  }
}
