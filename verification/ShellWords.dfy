/**
 * The line a dry run prints to be run again, and the shell that reads it: the
 * quoting rules of sections 2.2.1 and 2.2.2 and the blanks of section 2.3 of the
 * POSIX Shell Command Language.
 */
module ShellWords {
  import opened Wrappers
  import opened Packing
  import opened Findings
  import opened Wrap

  // ------------------------------------------------------- The shell

  /** Characters that unquoted mean something else than themselves, or may (section 2.2). */
  predicate Special(c: char) {
    || c == '|' || c == '&' || c == ';' || c == '<' || c == '>' || c == '(' || c == ')' || c == '$' || c == '`'
    || c == '"' || c == '\n' || c == '*' || c == '?' || c == '[' || c == '#' || c == '~' || c == '=' || c == '%'
  }

  predicate IsBlank(c: char) {
    c == ' ' || c == '\t'
  }

  function Before(words: seq<string>, rest: Option<seq<string>>): Option<seq<string>> {
    if rest.None? then None else Some(words + rest.value)
  }

  function Grown(word: Option<string>, c: char): Option<string> {
    Some((if word.Some? then word.value else "") + [c])
  }

  /**
   * The words of `s`, given the word being read and whether a single quote is
   * open. `None` is a line this reader does not take: an unquoted special
   * character, an open quote, or a lone backslash at the end.
   */
  function Scan(s: string, word: Option<string>, quoted: bool): (words: Option<seq<string>>)
    decreases |s|
  {
    if s == "" then
      if quoted then None else Some(if word.Some? then [word.value] else [])
    else if quoted then
      if s[0] == '\'' then Scan(s[1..], word, false) else Scan(s[1..], Grown(word, s[0]), true)
    else if IsBlank(s[0]) then
      Before(if word.Some? then [word.value] else [], Scan(s[1..], None, false))
    else if s[0] == '\'' then
      Scan(s[1..], Some(if word.Some? then word.value else ""), true)
    else if s[0] == '\\' then
      if |s| == 1 then None
      else if s[1] == '\n' then Scan(s[2..], word, false)
      else Scan(s[2..], Grown(word, s[1]), false)
    else if Special(s[0]) then None
    else Scan(s[1..], Grown(word, s[0]), false)
  }

  function ShellSplit(line: string): (words: Option<seq<string>>) {
    Scan(line, None, false)
  }

  // ------------------------------------------------------- The printer

  /** `value.replace('\'', "'\\''")`. */
  function Escaped(value: string): (text: string) {
    if value == "" then ""
    else (if value[0] == '\'' then "'\\''" else [value[0]]) + Escaped(value[1..])
  }

  function ShellQuote(value: string): (text: string) {
    "'" + Escaped(value) + "'"
  }

  datatype Args = Args(
    categories: seq<string>, risk: Option<Risk>, exclude: seq<string>, maxSize: Option<string>,
    unusedAfter: Option<string>, purge: bool)

  const ALL_CATEGORIES := [
    UserCache, BuildCache, IosSimulators, Trash, Snapshots, OldBackups, UnusedApps, CloudSynced, Duplicates,
    LargeOldFiles]

  /** `trim`. */
  function TrimStart(s: string): string {
    if s != "" && White(s[0]) then TrimStart(s[1..]) else s
  }

  function TrimEnd(s: string): string
    decreases |s|
  {
    if s != "" && White(s[|s| - 1]) then TrimEnd(s[..|s| - 1]) else s
  }

  /** The category a raw argument names, blanks around it ignored. */
  function CategoryOf(raw: string, among: seq<Category>): (found: Option<Category>) {
    if among == [] then None
    else if among[0].Id() == TrimEnd(TrimStart(raw)) then Some(among[0])
    else CategoryOf(raw, among[1..])
  }

  function LevelText(risk: Risk): string {
    match risk case Green => "green" case Amber => "amber" case Red => "red"
  }

  lemma {:induction false} TrimStartDrops(blank: string, rest: string)
    requires Blank(blank) && (rest == "" || !White(rest[0]))
    ensures TrimStart(blank + rest) == rest
  {
    if blank == "" {
      assert blank + rest == rest;
    } else {
      assert (blank + rest)[1..] == blank[1..] + rest;
      TrimStartDrops(blank[1..], rest);
    }
  }

  lemma {:induction false} TrimEndDrops(rest: string, blank: string)
    requires Blank(blank) && (rest == "" || !White(rest[|rest| - 1]))
    ensures TrimEnd(rest + blank) == rest
    decreases |blank|
  {
    if blank == "" {
      assert rest + blank == rest;
    } else {
      assert (rest + blank)[..|rest + blank| - 1] == rest + blank[..|blank| - 1];
      TrimEndDrops(rest, blank[..|blank| - 1]);
    }
  }

  /** Trimming takes white space off both ends, and nothing else. */
  lemma {:induction false} TrimStartSplits(s: string)
    ensures exists blank :: Blank(blank) && s == blank + TrimStart(s)
  {
    if s != "" && White(s[0]) {
      TrimStartSplits(s[1..]);
      var blank :| Blank(blank) && s[1..] == blank + TrimStart(s[1..]);
      assert Blank([s[0]] + blank) && s == [s[0]] + blank + TrimStart(s);
    } else {
      assert Blank("") && s == "" + TrimStart(s);
    }
  }

  lemma {:induction false} TrimEndSplits(s: string)
    ensures exists blank :: Blank(blank) && s == TrimEnd(s) + blank
    decreases |s|
  {
    if s != "" && White(s[|s| - 1]) {
      var front := s[..|s| - 1];
      TrimEndSplits(front);
      var blank :| Blank(blank) && front == TrimEnd(front) + blank;
      assert Blank(blank + [s[|s| - 1]]) && s == TrimEnd(s) + (blank + [s[|s| - 1]]);
    } else {
      assert Blank("") && s == TrimEnd(s) + "";
    }
  }

  lemma IdsApart(c: Category, d: Category)
    requires c.Id() == d.Id()
    ensures c == d
  {
    assert |c.Id()| == |d.Id()| && c.Id()[0] == d.Id()[0];
  }

  lemma IdsAreWords(c: Category)
    ensures c.Id() != "" && !White(c.Id()[0]) && !White(c.Id()[|c.Id()| - 1])
  {
  }

  lemma {:induction false} FoundById(raw: string, among: seq<Category>, c: Category)
    ensures CategoryOf(raw, among) == Some(c) <==> c in among && c.Id() == TrimEnd(TrimStart(raw))
  {
    hide TrimEnd, TrimStart;
    if among != [] {
      FoundById(raw, among[1..], c);
      assert among == [among[0]] + among[1..];
      if among[0].Id() == c.Id() {
        IdsApart(among[0], c);
      }
    }
  }

  lemma EveryCategoryIsListed(c: Category)
    ensures c in ALL_CATEGORIES
  {
    match c
    case UserCache => assert ALL_CATEGORIES[0] == c;
    case BuildCache => assert ALL_CATEGORIES[1] == c;
    case IosSimulators => assert ALL_CATEGORIES[2] == c;
    case Trash => assert ALL_CATEGORIES[3] == c;
    case Snapshots => assert ALL_CATEGORIES[4] == c;
    case OldBackups => assert ALL_CATEGORIES[5] == c;
    case UnusedApps => assert ALL_CATEGORIES[6] == c;
    case CloudSynced => assert ALL_CATEGORIES[7] == c;
    case Duplicates => assert ALL_CATEGORIES[8] == c;
    case LargeOldFiles => assert ALL_CATEGORIES[9] == c;
  }

  /** An argument names a category exactly when it is that category's id with white space around it. */
  lemma CategoryNamedExactly(raw: string, c: Category)
    ensures CategoryOf(raw, ALL_CATEGORIES) == Some(c)
            <==> exists a, b :: Blank(a) && Blank(b) && raw == a + c.Id() + b
  {
    FoundById(raw, ALL_CATEGORIES, c);
    EveryCategoryIsListed(c);
    IdsAreWords(c);
    var id := c.Id();
    hide Category.Id, White, CategoryOf, TrimEnd, TrimStart;
    if a, b :| Blank(a) && Blank(b) && raw == a + id + b {
      TrimmedIs(a, id, b);
    }
    if id == TrimEnd(TrimStart(raw)) {
      TrimStartSplits(raw);
      TrimEndSplits(TrimStart(raw));
      var a :| Blank(a) && raw == a + TrimStart(raw);
      var b :| Blank(b) && TrimStart(raw) == id + b;
      assert raw == a + id + b;
    }
  }

  lemma TrimmedIs(a: string, word: string, b: string)
    requires Blank(a) && Blank(b) && word != "" && !White(word[0]) && !White(word[|word| - 1])
    ensures TrimEnd(TrimStart(a + word + b)) == word
  {
    assert a + word + b == a + (word + b);
    TrimStartDrops(a, word + b);
    TrimEndDrops(word, b);
  }

  // ------------------------------------------------------- What is meant

  /** A flag with its value, exactly as it was given. */
  function ValueWords(flag: string, value: Option<string>): (words: seq<string>) {
    if value.Some? then [flag, value.value] else []
  }

  function CategoryText(raw: string): Option<string> {
    match CategoryOf(raw, ALL_CATEGORIES) case Some(c) => Some(c.Id()) case None => None
  }

  /** The categories meant, by id, in the order given; an argument that names none is not printed. */
  function CategoryWords(categories: seq<string>): (words: seq<string>) {
    if categories == [] then []
    else ValueWords("--category", CategoryText(categories[0])) + CategoryWords(categories[1..])
  }

  function ExcludeWords(globs: seq<string>): (words: seq<string>) {
    if globs == [] then [] else ValueWords("--exclude", Some(globs[0])) + ExcludeWords(globs[1..])
  }

  function RiskText(risk: Option<Risk>): Option<string> {
    if risk.Some? then Some(LevelText(risk.value)) else None
  }

  /** The arguments meant, word by word, values exactly as they were given. */
  function Flags(args: Args): (words: seq<string>) {
    CategoryWords(args.categories)
    + (ValueWords("--risk", RiskText(args.risk))
       + (ExcludeWords(args.exclude)
          + (ValueWords("--max-size", args.maxSize)
             + (ValueWords("--unused-after", args.unusedAfter) + PurgeWords(args.purge)))))
  }

  function PurgeWords(purge: bool): (words: seq<string>) {
    if purge then ["--purge"] else []
  }

  /** The command meant. */
  function Intended(args: Args): (words: seq<string>) {
    ["broza", "clean"] + Flags(args)
  }

  // ------------------------------------------------------- Reading it back

  /** A character that stands for itself unquoted. */
  predicate Safe(c: char) {
    !Special(c) && !IsBlank(c) && c != '\'' && c != '\\'
  }

  predicate AllSafe(s: string) {
    s != "" && forall i :: 0 <= i < |s| ==> Safe(s[i])
  }

  /** An escaped quote closes the quotes, stands for itself, and opens them again. */
  lemma EscapeScans(word: string, more: string)
    ensures Scan("'\\''" + more, Some(word), true) == Scan(more, Some(word + ['\'']), true)
  {
    var s := "'\\''" + more;
    var after := ['\''] + more;
    assert s[1..] == ['\\', '\''] + after && s[1..][2..] == after && after[1..] == more;
    assert Scan(s, Some(word), true) == Scan(s[1..], Some(word), false);
    assert Scan(s[1..], Some(word), false) == Scan(after, Some(word + ['\'']), false);
  }

  /** Whatever the value holds, the shell reads its quoted form as the value. */
  lemma {:induction false} EscapedScans(value: string, word: string, rest: string)
    ensures Scan(Escaped(value) + "'" + rest, Some(word), true) == Scan(rest, Some(word + value), false)
    decreases |value|
  {
    var s := Escaped(value) + "'" + rest;
    if value == "" {
      assert s == "'" + rest && s[1..] == rest;
      assert word + value == word;
    } else {
      var more := Escaped(value[1..]) + "'" + rest;
      EscapedScans(value[1..], word + [value[0]], rest);
      assert word + [value[0]] + value[1..] == word + value;
      if value[0] == '\'' {
        assert s == "'\\''" + more;
        EscapeScans(word, more);
      } else {
        assert s == [value[0]] + more && s[1..] == more;
      }
    }
  }

  lemma QuoteScans(value: string, rest: string)
    ensures Scan(ShellQuote(value) + rest, None, false) == Scan(rest, Some(value), false)
  {
    var s := ShellQuote(value) + rest;
    assert s[0] == '\'' && s[1..] == Escaped(value) + "'" + rest;
    EscapedScans(value, "", rest);
    assert "" + value == value;
  }

  lemma {:induction false} SafeScans(text: string, word: Option<string>, rest: string)
    requires AllSafe(text)
    ensures Scan(text + rest, word, false)
            == Scan(rest, Some((if word.Some? then word.value else "") + text), false)
    decreases |text|
  {
    var s := text + rest;
    assert Safe(text[0]) && s[0] == text[0] && s[1..] == text[1..] + rest;
    var so := if word.Some? then word.value else "";
    if |text| > 1 {
      SafeScans(text[1..], Grown(word, text[0]), rest);
      assert so + [text[0]] + text[1..] == so + text;
    } else {
      assert text == [text[0]] && text[1..] + rest == rest;
    }
  }

  /** One part of the line is read as these words, whatever part follows. */
  ghost predicate ReadsAs(part: string, words: seq<string>) {
    && ShellSplit(part) == Some(words)
    && forall rest :: ShellSplit(part + [' '] + rest) == Before(words, ShellSplit(rest))
  }

  lemma BlankEnds(word: string, rest: string)
    ensures Scan([' '] + rest, Some(word), false) == Before([word], ShellSplit(rest))
  {
    assert ([' '] + rest)[1..] == rest;
  }

  lemma FlagReads(flag: string)
    requires AllSafe(flag)
    ensures ReadsAs(flag, [flag])
  {
    SafeScans(flag, None, "");
    assert flag + "" == flag && "" + flag == flag;
    forall rest ensures ShellSplit(flag + [' '] + rest) == Before([flag], ShellSplit(rest)) {
      assert flag + [' '] + rest == flag + ([' '] + rest);
      SafeScans(flag, None, [' '] + rest);
      BlankEnds(flag, rest);
    }
  }

  lemma QuotedReads(value: string)
    ensures ReadsAs(ShellQuote(value), [value])
  {
    QuoteScans(value, "");
    assert ShellQuote(value) + "" == ShellQuote(value);
    forall rest ensures ShellSplit(ShellQuote(value) + [' '] + rest) == Before([value], ShellSplit(rest)) {
      assert ShellQuote(value) + [' '] + rest == ShellQuote(value) + ([' '] + rest);
      QuoteScans(value, [' '] + rest);
      BlankEnds(value, rest);
    }
  }

  /** Two parts with a blank between them are read one after the other. */
  lemma PairReads(a: string, b: string, first: seq<string>, second: seq<string>)
    requires ReadsAs(a, first) && ReadsAs(b, second)
    ensures ReadsAs(a + [' '] + b, first + second)
  {
    hide ShellSplit;
    forall rest
      ensures ShellSplit(a + [' '] + b + [' '] + rest) == Before(first + second, ShellSplit(rest))
    {
      assert a + [' '] + b + [' '] + rest == a + [' '] + (b + [' '] + rest);
      assert ShellSplit(b + [' '] + rest) == Before(second, ShellSplit(rest));
      if ShellSplit(rest).Some? {
        assert first + (second + ShellSplit(rest).value) == first + second + ShellSplit(rest).value;
      }
    }
  }

  /** The parts so far, joined, are read as the words so far. */
  lemma PartAdded(parts: seq<string>, part: string, words: seq<string>, more: seq<string>)
    requires parts != [] && ReadsAs(Join(parts, ' '), words) && ReadsAs(part, more)
    ensures ReadsAs(Join(parts + [part], ' '), words + more)
  {
    JoinSnoc(parts, part, ' ');
    PairReads(Join(parts, ' '), part, words, more);
  }

  lemma FlagAndValue(flag: string, value: string)
    requires AllSafe(flag)
    ensures ReadsAs(flag + " " + ShellQuote(value), [flag, value])
    ensures AllSafe(value) ==> ReadsAs(flag + " " + value, [flag, value])
  {
    FlagReads(flag);
    QuotedReads(value);
    PairReads(flag, ShellQuote(value), [flag], [value]);
    assert [flag] + [value] == [flag, value];
    assert flag + [' '] + ShellQuote(value) == flag + " " + ShellQuote(value);
    if AllSafe(value) {
      FlagReads(value);
      PairReads(flag, value, [flag], [value]);
      assert flag + [' '] + value == flag + " " + value;
    }
  }

  /** Small letters and dashes. */
  predicate Kebab(s: string) {
    s != "" && forall i :: 0 <= i < |s| ==> 'a' <= s[i] <= 'z' || s[i] == '-'
  }

  lemma KebabIsSafe(s: string)
    requires Kebab(s)
    ensures AllSafe(s)
  {
  }

  lemma IdsAreSafe(c: Category)
    ensures AllSafe(c.Id())
  {
    hide AllSafe;
    KebabIsSafe(c.Id());
  }

  lemma LevelsAreSafe(risk: Risk)
    ensures AllSafe(LevelText(risk))
  {
    assert Kebab("green") && Kebab("amber") && Kebab("red");
    KebabIsSafe(LevelText(risk));
  }

  /** A flag is added to the line. */
  lemma FlagAdded(parts: seq<string>, words: seq<string>, flag: string)
    requires parts != [] && ReadsAs(Join(parts, ' '), words) && Kebab(flag)
    ensures ReadsAs(Join(parts + [flag], ' '), words + [flag])
  {
    KebabIsSafe(flag);
    FlagReads(flag);
    PartAdded(parts, flag, words, [flag]);
  }

  /** A flag and a value that needs no quotes, or has them, are added to the line. */
  lemma ValueAdded(parts: seq<string>, words: seq<string>, flag: string, value: string)
    requires parts != [] && ReadsAs(Join(parts, ' '), words) && Kebab(flag)
    ensures ReadsAs(Join(parts + [flag + " " + ShellQuote(value)], ' '), words + [flag, value])
    ensures AllSafe(value) ==> ReadsAs(Join(parts + [flag + " " + value], ' '), words + [flag, value])
  {
    hide ReadsAs, AllSafe, Join, ShellQuote, Kebab;
    KebabIsSafe(flag);
    FlagAndValue(flag, value);
    PartAdded(parts, flag + " " + ShellQuote(value), words, [flag, value]);
    if AllSafe(value) {
      PartAdded(parts, flag + " " + value, words, [flag, value]);
    }
  }

  lemma LineStarts()
    ensures ReadsAs(Join(["broza clean"], ' '), ["broza", "clean"])
  {
    assert Kebab("broza") && Kebab("clean");
    KebabIsSafe("broza");
    KebabIsSafe("clean");
    FlagReads("broza");
    FlagReads("clean");
    PairReads("broza", "clean", ["broza"], ["clean"]);
    assert "broza" + [' '] + "clean" == "broza clean";
    assert ["broza"] + ["clean"] == ["broza", "clean"];
  }

  /** `parts` is a line so far, read as `words` so far. */
  ghost predicate Reading(parts: seq<string>, words: seq<string>) {
    parts != [] && ReadsAs(Join(parts, ' '), words)
  }

  /** A flag and its quoted value are pushed when there is a value. */
  method PushQuoted(before: seq<string>, ghost read: seq<string>, flag: string, value: Option<string>)
    returns (parts: seq<string>)
    requires Reading(before, read) && Kebab(flag)
    ensures Reading(parts, read + ValueWords(flag, value))
  {
    hide ReadsAs, Join, ShellQuote, Kebab;
    parts := before;
    if value.Some? {
      ValueAdded(before, read, flag, value.value);
      parts := before + [flag + " " + ShellQuote(value.value)];
    } else {
      assert read + [] == read;
    }
  }

  /** A flag and its value are pushed as they are when there is a value. */
  method PushPlain(before: seq<string>, ghost read: seq<string>, flag: string, value: Option<string>)
    returns (parts: seq<string>)
    requires Reading(before, read) && Kebab(flag) && (value.Some? ==> AllSafe(value.value))
    ensures Reading(parts, read + ValueWords(flag, value))
  {
    hide ReadsAs, Join, ShellQuote, Kebab, AllSafe;
    parts := before;
    if value.Some? {
      ValueAdded(before, read, flag, value.value);
      parts := before + [flag + " " + value.value];
    } else {
      assert read + [] == read;
    }
  }

  lemma CategoryStep(read: seq<string>, categories: seq<string>, i: nat)
    requires i < |categories|
    ensures read + ValueWords("--category", CategoryText(categories[i])) + CategoryWords(categories[i + 1..])
            == read + CategoryWords(categories[i..])
  {
    assert categories[i..][0] == categories[i] && categories[i..][1..] == categories[i + 1..];
  }

  lemma ExcludeStep(read: seq<string>, globs: seq<string>, i: nat)
    requires i < |globs|
    ensures read + ValueWords("--exclude", Some(globs[i])) + ExcludeWords(globs[i + 1..]) == read + ExcludeWords(globs[i..])
  {
    assert globs[i..][0] == globs[i] && globs[i..][1..] == globs[i + 1..];
  }

  lemma NothingLeft(read: seq<string>, args: seq<string>)
    ensures args[|args|..] == [] && args[0..] == args
    ensures read + CategoryWords([]) == read && read + ExcludeWords([]) == read
  {
  }

  /** The categories of the line, and of what it is read as. */
  method PushCategories(before: seq<string>, ghost read: seq<string>, categories: seq<string>)
    returns (parts: seq<string>)
    requires Reading(before, read)
    ensures Reading(parts, read + CategoryWords(categories))
  {
    assert Kebab("--category");
    hide CategoryText, Kebab, Reading, ValueWords, CategoryWords;
    NothingLeft(read, categories);
    parts := before;
    ghost var words := read;
    for i := 0 to |categories|
      invariant Reading(parts, words)
      invariant words + CategoryWords(categories[i..]) == read + CategoryWords(categories)
    {
      CategoryStep(words, categories, i);
      CategoryIsSafe(categories[i]);
      parts := PushPlain(parts, words, "--category", CategoryText(categories[i]));
      words := words + ValueWords("--category", CategoryText(categories[i]));
    }
    NothingLeft(words, categories);
  }

  /** The exclusions of the line, and of what it is read as. */
  method PushExcludes(before: seq<string>, ghost read: seq<string>, globs: seq<string>) returns (parts: seq<string>)
    requires Reading(before, read)
    ensures Reading(parts, read + ExcludeWords(globs))
  {
    assert Kebab("--exclude");
    hide Kebab, Reading, ValueWords, ExcludeWords;
    NothingLeft(read, globs);
    parts := before;
    ghost var words := read;
    for i := 0 to |globs|
      invariant Reading(parts, words)
      invariant words + ExcludeWords(globs[i..]) == read + ExcludeWords(globs)
    {
      ExcludeStep(words, globs, i);
      parts := PushQuoted(parts, words, "--exclude", Some(globs[i]));
      words := words + ValueWords("--exclude", Some(globs[i]));
    }
    NothingLeft(words, globs);
  }

  lemma CategoryIsSafe(raw: string)
    ensures CategoryText(raw).Some? ==> AllSafe(CategoryText(raw).value)
  {
    hide AllSafe;
    var found := CategoryOf(raw, ALL_CATEGORIES);
    if found.Some? {
      IdsAreSafe(found.value);
    }
  }

  /** `rerun_command`: a shell reads the line it prints as exactly the command meant. */
  method RerunCommand(args: Args) returns (line: string)
    ensures ShellSplit(line) == Some(Intended(args))
  {
    LineStarts();
    assert Kebab("--risk") && Kebab("--max-size") && Kebab("--unused-after") && Kebab("--purge");
    if args.risk.Some? {
      LevelsAreSafe(args.risk.value);
    }
    hide AllSafe, Kebab, ReadsAs, CategoryWords, ExcludeWords, ShellSplit, ValueWords, Intended, Flags, PurgeWords;
    ghost var words := ["broza", "clean"];
    var parts := PushCategories(["broza clean"], words, args.categories);
    words := words + CategoryWords(args.categories);
    parts := PushPlain(parts, words, "--risk", RiskText(args.risk));
    words := words + ValueWords("--risk", RiskText(args.risk));
    parts := PushExcludes(parts, words, args.exclude);
    words := words + ExcludeWords(args.exclude);
    parts := PushQuoted(parts, words, "--max-size", args.maxSize);
    words := words + ValueWords("--max-size", args.maxSize);
    parts := PushQuoted(parts, words, "--unused-after", args.unusedAfter);
    words := words + ValueWords("--unused-after", args.unusedAfter);
    if args.purge {
      FlagAdded(parts, words, "--purge");
      parts := parts + ["--purge"];
      words := words + ["--purge"];
    }
    line := Join(parts, ' ');
    ReadsWhole(line, words);
    Grouped(args);
  }

  lemma Grouped(args: Args)
    ensures Intended(args)
            == ["broza", "clean"] + CategoryWords(args.categories) + ValueWords("--risk", RiskText(args.risk))
               + ExcludeWords(args.exclude) + ValueWords("--max-size", args.maxSize)
               + ValueWords("--unused-after", args.unusedAfter) + PurgeWords(args.purge)
    ensures !args.purge ==>
              Intended(args)
              == ["broza", "clean"] + CategoryWords(args.categories) + ValueWords("--risk", RiskText(args.risk))
                 + ExcludeWords(args.exclude) + ValueWords("--max-size", args.maxSize)
                 + ValueWords("--unused-after", args.unusedAfter)
    ensures args.purge ==> PurgeWords(args.purge) == ["--purge"]
  {
    hide CategoryWords, ValueWords, ExcludeWords, RiskText;
  }

  lemma ReadsWhole(part: string, words: seq<string>)
    requires ReadsAs(part, words)
    ensures ShellSplit(part) == Some(words)
  {
  }

  // ------------------------------------------------------- Running it again

  function LevelNamed(text: string): Option<Risk> {
    if text == "green" then Some(Green)
    else if text == "amber" then Some(Amber)
    else if text == "red" then Some(Red)
    else None
  }

  /** A flag with its value, on top of what the rest of the command line gave. */
  function WithFlag(rest: Args, flag: string, value: string): Option<Args> {
    if flag == "--category" then Some(rest.(categories := [value] + rest.categories))
    else if flag == "--exclude" then Some(rest.(exclude := [value] + rest.exclude))
    else if flag == "--risk" && rest.risk.None? && LevelNamed(value).Some? then Some(rest.(risk := LevelNamed(value)))
    else if flag == "--max-size" && rest.maxSize.None? then Some(rest.(maxSize := Some(value)))
    else if flag == "--unused-after" && rest.unusedAfter.None? then Some(rest.(unusedAfter := Some(value)))
    else None
  }

  /** What `clean` takes the words after its name for; values that begin with a dash are taken as values. */
  function Parsed(words: seq<string>): Option<Args>
    decreases |words|
  {
    if words == [] then Some(Args([], None, [], None, None, false))
    else if words[0] == "--purge" then
      match Parsed(words[1..])
      case Some(rest) => if rest.purge then None else Some(rest.(purge := true))
      case None => None
    else if |words| == 1 then None
    else
      match Parsed(words[2..])
      case Some(rest) => WithFlag(rest, words[0], words[1])
      case None => None
  }

  /** The categories a list of arguments names, in order. */
  function Named(categories: seq<string>): (named: seq<Category>) {
    if categories == [] then []
    else
      match CategoryOf(categories[0], ALL_CATEGORIES)
      case Some(c) => [c] + Named(categories[1..])
      case None => Named(categories[1..])
  }

  /** Each flag sets its own argument. */
  lemma FlagsTake(rest: Args, value: string)
    ensures WithFlag(rest, "--category", value) == Some(rest.(categories := [value] + rest.categories))
    ensures WithFlag(rest, "--exclude", value) == Some(rest.(exclude := [value] + rest.exclude))
    ensures rest.maxSize.None? ==> WithFlag(rest, "--max-size", value) == Some(rest.(maxSize := Some(value)))
    ensures rest.unusedAfter.None? ==> WithFlag(rest, "--unused-after", value) == Some(rest.(unusedAfter := Some(value)))
  {
  }

  lemma LevelTakes(rest: Args, risk: Risk)
    requires rest.risk.None?
    ensures WithFlag(rest, "--risk", LevelText(risk)) == Some(rest.(risk := Some(risk)))
  {
    assert "green"[0] != "amber"[0] && "amber"[0] != "red"[0] && "green"[0] != "red"[0];
  }

  lemma IdNamesItself(c: Category)
    ensures CategoryOf(c.Id(), ALL_CATEGORIES) == Some(c)
  {
    hide Category.Id, CategoryOf;
    CategoryNamedExactly(c.Id(), c);
    assert Blank("") && c.Id() == "" + c.Id() + "";
  }

  lemma ValueParsed(flag: string, value: Option<string>, words: seq<string>, rest: Args)
    requires Parsed(words) == Some(rest) && flag != "--purge"
    ensures Parsed(ValueWords(flag, value) + words)
            == if value.Some? then WithFlag(rest, flag, value.value) else Some(rest)
  {
    if value.Some? {
      var all := ValueWords(flag, value) + words;
      assert all[0] == flag && all[1] == value.value && all[2..] == words;
    } else {
      assert ValueWords(flag, value) + words == words;
    }
  }

  lemma {:induction false} ExcludesParsed(globs: seq<string>, words: seq<string>, rest: Args)
    requires Parsed(words) == Some(rest)
    ensures Parsed(ExcludeWords(globs) + words) == Some(rest.(exclude := globs + rest.exclude))
  {
    if globs == [] {
      assert ExcludeWords(globs) + words == words && globs + rest.exclude == rest.exclude;
    } else {
      hide Parsed, ValueWords, WithFlag;
      FlagsTake(rest.(exclude := globs[1..] + rest.exclude), globs[0]);
      ExcludesParsed(globs[1..], words, rest);
      var more := ExcludeWords(globs[1..]) + words;
      ValueParsed("--exclude", Some(globs[0]), more, rest.(exclude := globs[1..] + rest.exclude));
      assert ExcludeWords(globs) + words == ValueWords("--exclude", Some(globs[0])) + more;
      assert [globs[0]] + (globs[1..] + rest.exclude) == globs + rest.exclude;
    }
  }

  /** One argument more: printed by its category's id if it names one, and else not at all. */
  lemma CategoryParsed(raw: string, words: seq<string>, rest: Args) returns (ids: seq<string>)
    requires Parsed(words) == Some(rest)
    ensures Parsed(ValueWords("--category", CategoryText(raw)) + words)
            == Some(rest.(categories := ids + rest.categories))
    ensures match CategoryOf(raw, ALL_CATEGORIES) case Some(c) => ids == [c.Id()] case None => ids == []
  {
    hide Parsed, ValueWords, CategoryOf, WithFlag, Category.Id;
    ValueParsed("--category", CategoryText(raw), words, rest);
    match CategoryOf(raw, ALL_CATEGORIES)
    case Some(c) =>
      FlagsTake(rest, c.Id());
      ids := [c.Id()];
    case None =>
      ids := [];
      assert [] + rest.categories == rest.categories;
  }

  lemma NamedCons(raw: string, ids: seq<string>, tail: seq<string>, categories: seq<string>)
    requires categories != [] && categories[0] == raw && Named(tail) == Named(categories[1..])
    requires match CategoryOf(raw, ALL_CATEGORIES) case Some(c) => ids == [c.Id()] case None => ids == []
    ensures Named(ids + tail) == Named(categories)
  {
    hide CategoryOf, Category.Id;
    match CategoryOf(raw, ALL_CATEGORIES)
    case Some(c) =>
      IdNamesItself(c);
      assert (ids + tail)[0] == c.Id() && (ids + tail)[1..] == tail;
    case None =>
      assert ids + tail == tail;
  }

  lemma {:induction false} CategoriesParsed(categories: seq<string>, words: seq<string>, rest: Args)
    returns (ids: seq<string>)
    requires Parsed(words) == Some(rest) && rest.categories == []
    ensures Parsed(CategoryWords(categories) + words) == Some(rest.(categories := ids))
    ensures Named(ids) == Named(categories)
  {
    hide Parsed, ValueWords, CategoryOf, WithFlag, Category.Id, Named, CategoryText;
    if categories == [] {
      assert CategoryWords(categories) + words == words;
      ids := [];
    } else {
      var tail := CategoriesParsed(categories[1..], words, rest);
      var more := CategoryWords(categories[1..]) + words;
      var first := CategoryParsed(categories[0], more, rest.(categories := tail));
      assert CategoryWords(categories) + words == ValueWords("--category", CategoryText(categories[0])) + more;
      ids := first + tail;
      NamedCons(categories[0], first, tail, categories);
    }
  }

  lemma PurgeParsed(purge: bool)
    ensures Parsed(PurgeWords(purge)) == Some(Args([], None, [], None, None, purge))
  {
    assert Parsed([]) == Some(Args([], None, [], None, None, false));
    assert purge ==> PurgeWords(purge)[1..] == [];
  }

  /** What the flags after the categories give. */
  lemma LimitsParsed(args: Args)
    ensures Parsed(ValueWords("--max-size", args.maxSize)
                   + (ValueWords("--unused-after", args.unusedAfter) + PurgeWords(args.purge)))
            == Some(Args([], None, [], args.maxSize, args.unusedAfter, args.purge))
  {
    hide Parsed, ValueWords, WithFlag, PurgeWords;
    PurgeParsed(args.purge);
    var purged := Args([], None, [], None, None, args.purge);
    var aged := Args([], None, [], None, args.unusedAfter, args.purge);
    if args.unusedAfter.Some? {
      FlagsTake(purged, args.unusedAfter.value);
    }
    ValueParsed("--unused-after", args.unusedAfter, PurgeWords(args.purge), purged);
    if args.maxSize.Some? {
      FlagsTake(aged, args.maxSize.value);
    }
    ValueParsed("--max-size", args.maxSize, ValueWords("--unused-after", args.unusedAfter) + PurgeWords(args.purge), aged);
  }

  /**
   * The printed command, run again, selects what this run selected: the same
   * categories, risk, exclusions, limits and kind of removal.
   */
  lemma RerunSelectsTheSame(args: Args)
    ensures var again := Parsed(Flags(args));
            && again.Some? && Named(again.value.categories) == Named(args.categories)
            && again.value == args.(categories := again.value.categories)
  {
    hide Parsed, ValueWords, CategoryWords, ExcludeWords, WithFlag, LevelText, PurgeWords, Named;
    LimitsParsed(args);
    var limits := ValueWords("--max-size", args.maxSize)
    + (ValueWords("--unused-after", args.unusedAfter) + PurgeWords(args.purge));
    ExcludesParsed(args.exclude, limits, Args([], None, [], args.maxSize, args.unusedAfter, args.purge));
    assert args.exclude + [] == args.exclude;
    var excluded := Args([], None, args.exclude, args.maxSize, args.unusedAfter, args.purge);
    if args.risk.Some? {
      LevelTakes(excluded, args.risk.value);
    }
    ValueParsed("--risk", RiskText(args.risk), ExcludeWords(args.exclude) + limits, excluded);
    var risk := ValueWords("--risk", RiskText(args.risk)) + (ExcludeWords(args.exclude) + limits);
    var ids := CategoriesParsed(args.categories, risk, args.(categories := []));
  }
}
