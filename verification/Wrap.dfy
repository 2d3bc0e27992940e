/** Paragraph wrapping, `wrap_to`: from a text to indented lines and back to its words. */
module Wrap {
  import opened Packing

  /** The Unicode `White_Space` characters, which `split_whitespace` splits at. */
  predicate White(c: char) {
    var u := c as int;
    || 0x9 <= u <= 0xD || u == 0x20 || u == 0x85 || u == 0xA0 || u == 0x1680 || 0x2000 <= u <= 0x200A
    || u == 0x2028 || u == 0x2029 || u == 0x202F || u == 0x205F || u == 0x3000
  }

  /** Where the text's first white character is, its length when there is none. */
  function WordLength(text: string): (n: nat)
    ensures n <= |text|
    ensures forall i :: 0 <= i < n ==> !White(text[i])
    ensures n < |text| ==> White(text[n])
  {
    if text == "" || White(text[0]) then 0 else 1 + WordLength(text[1..])
  }

  /** `split_whitespace`. */
  function Words(text: string): (words: seq<string>)
    ensures forall w :: w in words ==> IsWord(w)
    decreases |text|
  {
    if text == "" then []
    else if White(text[0]) then Words(text[1..])
    else [text[..WordLength(text)]] + Words(text[WordLength(text)..])
  }

  predicate IsWord(w: string) {
    w != "" && forall i :: 0 <= i < |w| ==> !White(w[i])
  }

  predicate Blank(s: string) {
    forall i :: 0 <= i < |s| ==> White(s[i])
  }

  /** A text that a word can be put before without growing it. */
  predicate Apart(s: string) {
    s == "" || White(s[0])
  }

  lemma {:induction false} BlankSkipped(blank: string, rest: string)
    requires Blank(blank)
    ensures Words(blank + rest) == Words(rest)
  {
    if blank == "" {
      assert blank + rest == rest;
    } else {
      assert (blank + rest)[1..] == blank[1..] + rest;
      BlankSkipped(blank[1..], rest);
    }
  }

  lemma {:induction false} WordEnds(w: string, rest: string)
    requires (forall i :: 0 <= i < |w| ==> !White(w[i])) && Apart(rest)
    ensures WordLength(w + rest) == |w|
  {
    if w == "" {
      assert w + rest == rest;
    } else {
      assert (w + rest)[1..] == w[1..] + rest;
      WordEnds(w[1..], rest);
    }
  }

  lemma WordTaken(w: string, rest: string)
    requires IsWord(w) && Apart(rest)
    ensures Words(w + rest) == [w] + Words(rest)
  {
    WordEnds(w, rest);
    assert (w + rest)[..|w|] == w && (w + rest)[|w|..] == rest;
  }

  lemma {:induction false} LineRead(line: seq<string>, rest: string)
    requires (forall w :: w in line ==> IsWord(w)) && Apart(rest)
    ensures Words(Join(line, ' ') + rest) == line + Words(rest)
  {
    assert White(' ');
    hide White, Words, WordLength, IsWord;
    if line == [] {
      assert Join(line, ' ') + rest == rest;
    } else if |line| == 1 {
      WordTaken(line[0], rest);
      assert line == [line[0]];
    } else {
      var tail := Join(line[1..], ' ') + rest;
      assert Join(line, ' ') + rest == line[0] + ([' '] + tail);
      WordTaken(line[0], [' '] + tail);
      BlankSkipped([' '], tail);
      LineRead(line[1..], rest);
      assert [line[0]] + (line[1..] + Words(rest)) == line + Words(rest);
    }
  }

  /** Each line after the indent, as `format!("{indent}{line}")` writes it. */
  function Indented(texts: seq<string>, indent: string): (shown: seq<string>)
    ensures |shown| == |texts|
  {
    seq(|texts|, i requires 0 <= i < |texts| => indent + texts[i])
  }

  function Budget(indent: string, width: nat): (budget: nat)
    ensures budget >= 1
  {
    if width > |indent| then width - |indent| else 1
  }

  /** What the loop leaves: the greedy lines, indented, joined by newlines. */
  function Wrapped(text: string, indent: string, width: nat): (wrapped: string) {
    Join(Indented(Texts(Greedy(Words(text), Budget(indent, width)), ' '), indent), '\n')
  }

  lemma {:induction false} LinesRead(lines: seq<seq<string>>, indent: string)
    requires Blank(indent) && forall i :: 0 <= i < |lines| ==> forall w :: w in lines[i] ==> IsWord(w)
    ensures Words(Join(Indented(Texts(lines, ' '), indent), '\n')) == Flatten(lines)
  {
    var texts := Indented(Texts(lines, ' '), indent);
    if lines == [] {
    } else if |lines| == 1 {
      BlankSkipped(indent, Join(lines[0], ' '));
      assert Join(lines[0], ' ') == Join(lines[0], ' ') + "";
      LineRead(lines[0], "");
      assert lines[1..] == [];
    } else {
      var rest := Join(texts[1..], '\n');
      assert texts[1..] == Indented(Texts(lines[1..], ' '), indent);
      assert Join(texts, '\n') == indent + (Join(lines[0], ' ') + (['\n'] + rest));
      BlankSkipped(indent, Join(lines[0], ' ') + (['\n'] + rest));
      LineRead(lines[0], ['\n'] + rest);
      BlankSkipped(['\n'], rest);
      LinesRead(lines[1..], indent);
    }
  }

  /** Under a blank indent the wrapped paragraph has exactly the text's words, in order. */
  lemma WrapKeepsWords(text: string, indent: string, width: nat)
    requires Blank(indent)
    ensures Words(Wrapped(text, indent, width)) == Words(text)
  {
    var lines := Greedy(Words(text), Budget(indent, width));
    GreedyBreaks(Words(text), Budget(indent, width));
    forall i, w | 0 <= i < |lines| && w in lines[i] ensures IsWord(w) {
      FlattenHolds(lines, i, w);
    }
    LinesRead(lines, indent);
  }

  /** Wrapping a wrapped paragraph again changes nothing, and changing the width forgets the first one. */
  lemma WrapIsIdempotent(text: string, indent: string, first: nat, width: nat)
    requires Blank(indent)
    ensures Wrapped(Wrapped(text, indent, first), indent, width) == Wrapped(text, indent, width)
  {
    WrapKeepsWords(text, indent, first);
  }

  /** Every line carries the indent, and passes the width only when a single word, or no budget, makes it. */
  lemma LinesWithinWidth(text: string, indent: string, width: nat, i: nat)
    requires i < |Greedy(Words(text), Budget(indent, width))|
    ensures var lines := Greedy(Words(text), Budget(indent, width));
            var shown := Indented(Texts(lines, ' '), indent)[i];
            && indent <= shown
            && (|shown| <= width || |lines[i]| == 1)
  {
    var lines := Greedy(Words(text), Budget(indent, width));
    GreedyBreaks(Words(text), Budget(indent, width));
    JoinWidth(lines[i], ' ');
    if |lines[i]| > 1 {
      FlattenHolds(lines, i, lines[i][0]);
      FlattenHolds(lines, i, lines[i][1]);
      assert lines[i][1..][0] == lines[i][1];
    }
  }

  /** And no line ends before the width makes it: its next word would not have fitted. */
  lemma LinesAreFull(text: string, indent: string, width: nat, i: nat)
    requires i + 1 < |Greedy(Words(text), Budget(indent, width))|
    ensures var lines := Greedy(Words(text), Budget(indent, width));
            lines[i + 1] != [] && |Indented(Texts(lines, ' '), indent)[i]| + 1 + |lines[i + 1][0]| > width
  {
    var lines := Greedy(Words(text), Budget(indent, width));
    GreedyFills(Words(text), Budget(indent, width), i);
    JoinWidth(lines[i], ' ');
  }

  /** `wrap_to`, the loop over a line being filled. */
  method WrapTo(text: string, indent: string, width: nat) returns (wrapped: string)
    ensures wrapped == Wrapped(text, indent, width)
  {
    hide Words, White, GreedyFrom, Texts, Indented, Span;
    var budget := if width > |indent| then width - |indent| else 1;
    var words := Words(text);
    var lines: seq<string>, current := [], "";
    ghost var done: seq<seq<string>>, filling: seq<string> := [], [];
    assert Texts(done, ' ') == [];
    for i := 0 to |words|
      invariant current == Join(filling, ' ') && (current == "" <==> filling == [])
      invariant lines == Texts(done, ' ')
      invariant done + GreedyFrom(filling, words[i..], budget) == Greedy(words, budget)
    {
      var word := words[i];
      assert word in words;
      if filling != [] {
        JoinWidth(filling, ' ');
        JoinSnoc(filling, word, ' ');
      }
      if current != "" && |current| + 1 + |word| > budget {
        GreedyBreaksHere(done, filling, words, i, budget);
        assert [] + [word] == [word];
        TextsSnoc(done, filling, ' ');
        lines, current := lines + [current], "";
        done, filling := done + [filling], [];
      } else {
        GreedyGrowsHere(filling, words, i, budget);
      }
      if current != "" {
        current := current + " ";
      }
      current := current + word;
      filling := filling + [word];
    }
    GreedyEnds(filling, budget);
    if current != "" {
      TextsSnoc(done, filling, ' ');
      lines := lines + [current];
      done := done + [filling];
    }
    assert words[|words|..] == [];
    assert done == Greedy(words, budget);
    wrapped := Join(Indented(lines, indent), '\n');
  }
}
