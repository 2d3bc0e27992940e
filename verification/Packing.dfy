/**
 * The greedy packing shared by paragraph wrapping and by opening deep
 * directories: words are put on a line, one separator between two, until the
 * next would pass the budget.
 */
module Packing {
  /** The words of a line with `sep` between each two. */
  function Join(line: seq<string>, sep: char): (s: string)
    ensures line == [] ==> s == ""
  {
    if line == [] then ""
    else if |line| == 1 then line[0]
    else line[0] + [sep] + Join(line[1..], sep)
  }

  lemma {:induction false} JoinSnoc(line: seq<string>, word: string, sep: char)
    requires line != []
    ensures Join(line + [word], sep) == Join(line, sep) + [sep] + word
  {
    var longer := line + [word];
    if |line| == 1 {
      assert longer[1..] == [word];
    } else {
      assert longer[1..] == line[1..] + [word];
      JoinSnoc(line[1..], word, sep);
    }
  }

  /** The width reached after `words` are added to a line that has width `from`. */
  function Span(from: nat, words: seq<string>): (width: nat)
    ensures width >= from
    decreases |words|
  {
    if words == [] then from else Span(from + 1 + |words[0]|, words[1..])
  }

  lemma {:induction false} SpanShift(from: nat, more: nat, words: seq<string>)
    ensures Span(from + more, words) == Span(from, words) + more
    decreases |words|
  {
    if words != [] {
      SpanShift(from + 1 + |words[0]|, more, words[1..]);
      assert from + more + 1 + |words[0]| == from + 1 + |words[0]| + more;
    }
  }

  lemma {:induction false} JoinWidth(line: seq<string>, sep: char)
    requires line != []
    ensures |Join(line, sep)| == Span(|line[0]|, line[1..])
  {
    if |line| > 1 {
      JoinWidth(line[1..], sep);
      var rest := line[1..];
      SpanShift(|rest[0]|, |line[0]| + 1, rest[1..]);
      assert |line[0]| + 1 + |rest[0]| == |rest[0]| + (|line[0]| + 1);
    }
  }

  function Flatten(lines: seq<seq<string>>): (words: seq<string>) {
    if lines == [] then [] else lines[0] + Flatten(lines[1..])
  }

  lemma {:induction false} FlattenSnoc(lines: seq<seq<string>>, line: seq<string>)
    ensures Flatten(lines + [line]) == Flatten(lines) + line
  {
    if lines == [] {
      assert lines + [line] == [line];
      assert [line][1..] == [];
    } else {
      assert (lines + [line])[1..] == lines[1..] + [line];
      FlattenSnoc(lines[1..], line);
    }
  }

  lemma {:induction false} FlattenHolds(lines: seq<seq<string>>, i: nat, w: string)
    requires i < |lines| && w in lines[i]
    ensures w in Flatten(lines)
  {
    if i > 0 {
      FlattenHolds(lines[1..], i - 1, w);
    }
  }

  /** The text of each line. */
  function Texts(lines: seq<seq<string>>, sep: char): (texts: seq<string>)
    ensures |texts| == |lines|
  {
    seq(|lines|, i requires 0 <= i < |lines| => Join(lines[i], sep))
  }

  lemma TextsSnoc(lines: seq<seq<string>>, line: seq<string>, sep: char)
    ensures Texts(lines + [line], sep) == Texts(lines, sep) + [Join(line, sep)]
  {
  }

  lemma TextsPrefix(lines: seq<seq<string>>, more: seq<seq<string>>, sep: char)
    ensures Texts(lines, sep) <= Texts(lines + more, sep)
  {
  }

  /** A line may stand: it is one word, or its text is within the budget. */
  predicate Fits(line: seq<string>, budget: nat) {
    && line != []
    && (|line| == 1 || Span(|line[0]|, line[1..]) <= budget)
  }

  /** `lines` is a way to break `words` into lines that may stand. */
  predicate Breaks(lines: seq<seq<string>>, words: seq<string>, budget: nat) {
    && Flatten(lines) == words
    && forall i :: 0 <= i < |lines| ==> Fits(lines[i], budget)
  }

  /** The loop's lines from the line it is filling and the words still to come. */
  function GreedyFrom(current: seq<string>, words: seq<string>, budget: nat): (lines: seq<seq<string>>)
    decreases |words|
  {
    if words == [] then if current == [] then [] else [current]
    else if current != [] && Span(|current[0]|, current[1..]) + 1 + |words[0]| > budget
    then [current] + GreedyFrom([words[0]], words[1..], budget)
    else GreedyFrom(current + [words[0]], words[1..], budget)
  }

  function Greedy(words: seq<string>, budget: nat): (lines: seq<seq<string>>) {
    GreedyFrom([], words, budget)
  }

  /** One turn of the loop when the word starts a line. */
  lemma GreedyBreaksHere(done: seq<seq<string>>, current: seq<string>, words: seq<string>, i: nat, budget: nat)
    requires i < |words| && current != []
    requires Span(|current[0]|, current[1..]) + 1 + |words[i]| > budget
    ensures (done + [current]) + GreedyFrom([words[i]], words[i + 1..], budget)
            == done + GreedyFrom(current, words[i..], budget)
  {
    assert words[i..][0] == words[i] && words[i..][1..] == words[i + 1..];
  }

  /** One turn of the loop when the word joins the line. */
  lemma GreedyGrowsHere(current: seq<string>, words: seq<string>, i: nat, budget: nat)
    requires i < |words|
    requires current == [] || Span(|current[0]|, current[1..]) + 1 + |words[i]| <= budget
    ensures GreedyFrom(current + [words[i]], words[i + 1..], budget) == GreedyFrom(current, words[i..], budget)
  {
    assert words[i..][0] == words[i] && words[i..][1..] == words[i + 1..];
  }

  lemma GreedyEnds(current: seq<string>, budget: nat)
    ensures GreedyFrom(current, [], budget) == if current == [] then [] else [current]
  {
  }

  lemma {:induction false} SpanSnoc(from: nat, words: seq<string>, word: string)
    ensures Span(from, words + [word]) == Span(from, words) + 1 + |word|
    decreases |words|
  {
    if words == [] {
      assert words + [word] == [word];
      assert Span(from, [word]) == Span(from + 1 + |word|, [word][1..]);
    } else {
      assert (words + [word])[1..] == words[1..] + [word];
      SpanSnoc(from + 1 + |words[0]|, words[1..], word);
    }
  }

  lemma {:induction false} GreedyFromBreaks(current: seq<string>, words: seq<string>, budget: nat)
    requires current != [] ==> Fits(current, budget)
    ensures Breaks(GreedyFrom(current, words, budget), current + words, budget)
    decreases |words|
  {
    var lines := GreedyFrom(current, words, budget);
    if words == [] {
      assert current + words == current;
      if current != [] {
        assert lines[1..] == [];
      }
    } else if current != [] && Span(|current[0]|, current[1..]) + 1 + |words[0]| > budget {
      GreedyFromBreaks([words[0]], words[1..], budget);
      assert lines[1..] == GreedyFrom([words[0]], words[1..], budget);
      assert [words[0]] + words[1..] == words;
    } else {
      if current != [] {
        SpanSnoc(|current[0]|, current[1..], words[0]);
        assert (current + [words[0]])[1..] == current[1..] + [words[0]];
      }
      GreedyFromBreaks(current + [words[0]], words[1..], budget);
      assert (current + [words[0]]) + words[1..] == current + words;
    }
  }

  /** The loop breaks the words into lines that may stand, every word kept in its place. */
  lemma GreedyBreaks(words: seq<string>, budget: nat)
    ensures Breaks(Greedy(words, budget), words, budget)
  {
    GreedyFromBreaks([], words, budget);
    assert [] + words == words;
  }

  /** The next line's first word would pass the budget. */
  ghost predicate Full(line: seq<string>, next: seq<string>, budget: nat) {
    line != [] && next != [] && Span(|line[0]|, line[1..]) + 1 + |next[0]| > budget
  }

  lemma {:induction false} GreedyFromFills(current: seq<string>, words: seq<string>, budget: nat, i: nat)
    ensures var lines := GreedyFrom(current, words, budget);
            && (current != [] ==> lines != [] && current <= lines[0])
            && (i + 1 < |lines| ==> Full(lines[i], lines[i + 1], budget))
    decreases |words|
  {
    if words != [] {
      if current != [] && Span(|current[0]|, current[1..]) + 1 + |words[0]| > budget {
        GreedyFromFills([words[0]], words[1..], budget, if i > 0 then i - 1 else 0);
      } else {
        GreedyFromFills(current + [words[0]], words[1..], budget, i);
      }
    }
  }

  /** The loop starts a line only when the word did not fit on the one before. */
  lemma GreedyFills(words: seq<string>, budget: nat, i: nat)
    requires i + 1 < |Greedy(words, budget)|
    ensures Full(Greedy(words, budget)[i], Greedy(words, budget)[i + 1], budget)
  {
    GreedyFromFills([], words, budget, i);
  }

  /** How many lines the loop starts after one that has width `from`. */
  function Started(from: nat, words: seq<string>, budget: nat): nat
    decreases |words|
  {
    if words == [] then 0
    else if from + 1 + |words[0]| > budget then 1 + Started(|words[0]|, words[1..], budget)
    else Started(from + 1 + |words[0]|, words[1..], budget)
  }

  lemma {:induction false} GreedyStarts(current: seq<string>, words: seq<string>, budget: nat)
    requires current != []
    ensures |GreedyFrom(current, words, budget)| == 1 + Started(Span(|current[0]|, current[1..]), words, budget)
    decreases |words|
  {
    if words != [] {
      if Span(|current[0]|, current[1..]) + 1 + |words[0]| > budget {
        GreedyStarts([words[0]], words[1..], budget);
      } else {
        SpanSnoc(|current[0]|, current[1..], words[0]);
        assert (current + [words[0]])[1..] == current[1..] + [words[0]];
        GreedyStarts(current + [words[0]], words[1..], budget);
      }
    }
  }

  /** A shorter line to begin with never costs a line, and never saves two. */
  lemma {:induction false} ShorterIsNoWorse(short: nat, long: nat, words: seq<string>, budget: nat)
    requires short <= long
    ensures Started(short, words, budget) <= Started(long, words, budget) <= 1 + Started(short, words, budget)
    decreases |words|
  {
    if words != [] {
      var w := |words[0]|;
      if short + 1 + w > budget {
      } else if long + 1 + w > budget {
        ShorterIsNoWorse(w, short + 1 + w, words[1..], budget);
      } else {
        ShorterIsNoWorse(short + 1 + w, long + 1 + w, words[1..], budget);
      }
    }
  }

  /** A word that starts another's line costs the loop one line at most. */
  lemma OneLineMore(from: nat, word: string, words: seq<string>, budget: nat)
    ensures Started(from, [word] + words, budget) <= 1 + Started(|word|, words, budget)
  {
    assert ([word] + words)[1..] == words;
    ShorterIsNoWorse(|word|, from + 1 + |word|, words, budget);
  }

  lemma SameLine(from: nat, word: string, words: seq<string>, budget: nat)
    requires from + 1 + |word| <= budget
    ensures Started(from, [word] + words, budget) == Started(from + 1 + |word|, words, budget)
  {
    assert ([word] + words)[1..] == words;
  }

  /**
   * The loop against another breaking, word by word: the other's line has width
   * `long` and takes `tail` too, the loop's is no longer.
   */
  lemma {:induction false} StaysAhead(
    short: nat, long: nat, tail: seq<string>, others: seq<seq<string>>, budget: nat)
    requires short <= long && (tail == [] || Span(long, tail) <= budget)
    requires forall i :: 0 <= i < |others| ==> Fits(others[i], budget)
    ensures Started(short, tail + Flatten(others), budget) <= |others|
    decreases |others|, |tail|
  {
    if tail != [] {
      var rest := tail[1..] + Flatten(others);
      var w := |tail[0]|;
      assert tail + Flatten(others) == [tail[0]] + rest;
      assert Span(long, tail) == Span(long + 1 + w, tail[1..]);
      hide Started, Flatten, Fits;
      SameLine(short, tail[0], rest, budget);
      StaysAhead(short + 1 + w, long + 1 + w, tail[1..], others, budget);
    } else if others != [] {
      var line, rest := others[0], others[0][1..] + Flatten(others[1..]);
      assert tail + Flatten(others) == [line[0]] + rest;
      assert line[1..] == [] || Span(|line[0]|, line[1..]) <= budget;
      hide Started, Flatten, Fits, Span;
      StaysAhead(|line[0]|, |line[0]|, line[1..], others[1..], budget);
      OneLineMore(short, line[0], rest, budget);
    } else {
      assert tail + Flatten(others) == [];
    }
  }

  /** No other way to break the words into lines that may stand has fewer lines. */
  lemma GreedyIsOptimal(words: seq<string>, others: seq<seq<string>>, budget: nat)
    requires Breaks(others, words, budget)
    ensures |Greedy(words, budget)| <= |others|
  {
    if words != [] {
      var line := others[0];
      GreedyStarts([words[0]], words[1..], budget);
      assert [] + [words[0]] == [words[0]];
      assert words[0] == line[0] && words[1..] == line[1..] + Flatten(others[1..]);
      StaysAhead(|line[0]|, |line[0]|, line[1..], others[1..], budget);
    }
  }
}
