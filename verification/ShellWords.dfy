/** Splitting REPL input into shell words, the last of which may be unfinished, and quoting a
    completed word so that it reads back as itself (`completion.rs`). Positions are in characters. */
module ShellWords {
  import opened Prelude

  datatype Quote = Single | Double

  datatype SplitInput = SplitInput(prefix: string, words: seq<string>, lastWordQuote: Option<Quote>)

  predicate IsBlank(c: char) {
    c == ' ' || c == '\t' || c == '\n'
  }

  // ---- the reference: one character at a time ----------------------------------------------

  /** What a character means, by sections 2.2.1 to 2.2.3 and 2.3 of the POSIX.1 Shell Command
      Language: the quoting state it is read in. */
  datatype Mode = Between | Comment | Bare | BareEscape | InSingle | InDouble | DoubleEscape

  datatype Scan = Scan(mode: Mode, words: seq<string>, word: string, start: Option<nat>,
                       quote: Option<Quote>)

  /** Between two words, with `words` read so far. */
  function Gap(words: seq<string>): Scan {
    Scan(Between, words, "", None, None)
  }

  function OrElse<T>(o: Option<T>, t: T): Option<T> {
    if o.Some? then o else Some(t)
  }

  /** The scan after the character `c` at position `i`. */
  function Advance(s: Scan, i: nat, c: char): Scan {
    match s.mode
    case Between =>
      if IsBlank(c) then s
      else if c == '#' then s.(mode := Comment)
      else AdvanceWord(s, i, c)
    case Comment => if c == '\n' then s.(mode := Between) else s
    case Bare => if IsBlank(c) then Gap(s.words + [s.word]) else AdvanceWord(s, i, c)
    case BareEscape => s.(mode := Bare, word := if c == '\n' then s.word else s.word + [c])
    case InSingle => if c == '\'' then s.(mode := Bare) else s.(word := s.word + [c])
    case InDouble =>
      if c == '"' then s.(mode := Bare)
      else if c == '\\' then s.(mode := DoubleEscape)
      else s.(word := s.word + [c])
    case DoubleEscape =>
      s.(mode := InDouble,
         word := if c == '\n' then s.word
                 else if c == '$' || c == '`' || c == '"' || c == '\\' then s.word + [c]
                 else s.word + ['\\', c])
  }

  /** A character of an unquoted word, or the one that begins it. */
  function AdvanceWord(s: Scan, i: nat, c: char): Scan {
    var s := s.(start := OrElse(s.start, i));
    if c == '\'' then s.(mode := InSingle, quote := OrElse(s.quote, Single))
    else if c == '"' then s.(mode := InDouble, quote := OrElse(s.quote, Double))
    else if c == '\\' then s.(mode := BareEscape)
    else s.(mode := Bare, word := s.word + [c])
  }

  /** The scan of the first `n` characters. */
  function ScanTo(input: string, n: nat): Scan
    requires n <= |input|
  {
    if n == 0 then Gap([]) else Advance(ScanTo(input, n - 1), n - 1, input[n - 1])
  }

  function Split(input: string): SplitInput
    ensures Split(input).words != [] && Split(input).prefix <= input
  {
    StartBound(input, |input|);
    var s := ScanTo(input, |input|);
    SplitInput(if s.start.Some? then input[..s.start.value] else input, s.words + [s.word], s.quote)
  }

  lemma {:induction false} StartBound(input: string, n: nat)
    requires n <= |input|
    ensures ScanTo(input, n).start.Some? ==> ScanTo(input, n).start.value < n
  {
    if n > 0 {
      StartBound(input, n - 1);
    }
  }

  // ---- the source's loop -------------------------------------------------------------------

  function ModeOf(wordStart: Option<nat>, openQuote: Option<Quote>): Mode {
    match openQuote
    case Some(Single) => InSingle
    case Some(Double) => InDouble
    case None => if wordStart.Some? then Bare else Between
  }

  /** `split_input`: a backslash takes the next character with it, a comment the rest of its line. */
  method SplitLine(input: string) returns (split: SplitInput)
    ensures split == Split(input)
  {
    var words: seq<string>, word := [], "";
    var wordStart: Option<nat> := None;
    var openQuote: Option<Quote> := None;
    var lastWordQuote: Option<Quote> := None;
    var dangling := false; // the input ended within an escape or a comment
    var i := 0;
    while i < |input|
      invariant 0 <= i <= |input|
      invariant openQuote.Some? ==> wordStart.Some?
      invariant dangling ==> i == |input|
      invariant var s := ScanTo(input, i);
                && s.words == words && s.word == word && s.start == wordStart
                && s.quote == lastWordQuote
                && (!dangling ==> s.mode == ModeOf(wordStart, openQuote))
      invariant wordStart.None? ==> word == "" && lastWordQuote.None?
    {
      var at := i;
      var c := input[i];
      i := i + 1;
      match openQuote
      case Some(Single) =>
        if c == '\'' {
          openQuote := None;
        } else {
          word := word + [c];
        }
      case Some(Double) =>
        if c == '"' {
          openQuote := None;
        } else if c == '\\' {
          if i < |input| {
            var escaped := input[i];
            i := i + 1;
            if escaped in {'$', '`', '"', '\\'} {
              word := word + [escaped];
            } else if escaped != '\n' {
              word := word + ['\\', escaped];
            }
          } else {
            dangling := true;
          }
        } else {
          word := word + [c];
        }
      case None =>
        if IsBlank(c) {
          if wordStart.Some? {
            wordStart, words, word := None, words + [word], "";
            lastWordQuote := None;
          }
        } else if c == '#' && wordStart.None? {
          dangling := true;
          while i < |input| && dangling
            invariant at < i <= |input|
            invariant ScanTo(input, i) ==
                      Gap(words).(mode := if dangling then Comment else Between)
          {
            dangling := input[i] != '\n';
            i := i + 1;
          }
        } else {
          if wordStart.None? {
            wordStart := Some(at);
          }
          if c == '\'' || c == '"' {
            var quote := if c == '"' then Double else Single;
            openQuote := Some(quote);
            if lastWordQuote.None? {
              lastWordQuote := Some(quote);
            }
          } else if c == '\\' {
            if i < |input| {
              var escaped := input[i];
              i := i + 1;
              if escaped != '\n' {
                word := word + [escaped];
              }
            } else {
              dangling := true;
            }
          } else {
            word := word + [c];
          }
        }
    }
    StartBound(input, |input|);
    words := words + [word];
    split := SplitInput(if wordStart.Some? then input[..wordStart.value] else input, words,
                        lastWordQuote);
  }

  // ---- quoting -----------------------------------------------------------------------------

  predicate NeedsQuotes(word: string) {
    || (word != "" && word[0] == '#')
    || exists c :: c in word && (IsBlank(c) || c == '"' || c == '\'' || c == '\\')
  }

  function EscapedChar(c: char): string {
    if c == '"' || c == '\\' then ['\\', c] else [c]
  }

  function Escaped(word: string): string {
    if word == "" then ""
    else EscapedChar(word[0]) + Escaped(word[1..])
  }

  function QuoteWord(word: string, quote: Option<Quote>): string {
    if quote.None? && !NeedsQuotes(word) then word
    else if quote == Some(Single) && '\'' !in word then ['\''] + word + ['\'']
    else ['"'] + Escaped(word) + ['"']
  }

  lemma {:induction false} EscapedSnoc(word: string, c: char)
    ensures Escaped(word + [c]) == Escaped(word) + EscapedChar(c)
  {
    if word == "" {
      assert word + [c] == [c] && [c][1..] == "";
    } else {
      EscapedSnoc(word[1..], c);
      assert (word + [c])[1..] == word[1..] + [c] && (word + [c])[0] == word[0];
      Associates(EscapedChar(word[0]), Escaped(word[1..]), EscapedChar(c));
    }
  }

  lemma Associates(a: string, b: string, c: string)
    ensures (a + b) + c == a + (b + c)
  {
  }

  /** `quote_word`, filling its buffer character by character. */
  method QuoteCompletion(word: string, quote: Option<Quote>) returns (quoted: string)
    ensures quoted == QuoteWord(word, quote)
  {
    if quote.None? && !NeedsQuotes(word) {
      return word;
    }
    if quote == Some(Single) && '\'' !in word {
      return ['\''] + word + ['\''];
    }
    quoted := ['"'];
    for i := 0 to |word|
      invariant quoted == ['"'] + Escaped(word[..i])
    {
      var c := word[i];
      EscapedSnoc(word[..i], c);
      assert word[..i + 1] == word[..i] + [c];
      if c == '"' || c == '\\' {
        quoted := quoted + ['\\'];
      }
      quoted := quoted + [c];
    }
    assert word[..|word|] == word;
    quoted := quoted + ['"'];
  }

  // ---- scans compose -----------------------------------------------------------------------

  /** The scan of the first `n` characters of `text`, standing at position `base`, from `s`. */
  function Resume(s: Scan, base: nat, text: string, n: nat): Scan
    requires n <= |text|
  {
    if n == 0 then s else Advance(Resume(s, base, text, n - 1), base + n - 1, text[n - 1])
  }

  function ResumeAll(s: Scan, base: nat, text: string): Scan {
    Resume(s, base, text, |text|)
  }

  lemma {:induction false} ScanPrefix(a: string, b: string, n: nat)
    requires n <= |a|
    ensures ScanTo(a + b, n) == ScanTo(a, n)
  {
    if n > 0 {
      ScanPrefix(a, b, n - 1);
    }
  }

  lemma {:induction false} ScanConcat(a: string, b: string, n: nat)
    requires n <= |b|
    ensures ScanTo(a + b, |a| + n) == Resume(ScanTo(a, |a|), |a|, b, n)
  {
    if n == 0 {
      ScanPrefix(a, b, |a|);
    } else {
      ScanConcat(a, b, n - 1);
    }
  }

  lemma {:induction false} ResumeConcat(s: Scan, base: nat, a: string, b: string, n: nat)
    requires n <= |b|
    ensures Resume(s, base, a + b, |a| + n) == Resume(ResumeAll(s, base, a), base + |a|, b, n)
  {
    if n == 0 {
      ResumePrefix(s, base, a, b, |a|);
    } else {
      ResumeConcat(s, base, a, b, n - 1);
    }
  }

  lemma {:induction false} ResumePrefix(s: Scan, base: nat, a: string, b: string, n: nat)
    requires n <= |a|
    ensures Resume(s, base, a + b, n) == Resume(s, base, a, n)
  {
    if n > 0 {
      ResumePrefix(s, base, a, b, n - 1);
    }
  }

  lemma ResumeThen(s: Scan, base: nat, a: string, b: string)
    ensures ResumeAll(s, base, a + b) == ResumeAll(ResumeAll(s, base, a), base + |a|, b)
  {
    ResumeConcat(s, base, a, b, |b|);
  }

  lemma ResumeOne(s: Scan, base: nat, c: char)
    ensures ResumeAll(s, base, [c]) == Advance(s, base, c)
  {
    assert Resume(s, base, [c], 0) == s;
  }

  /** Once the last word has begun, it began between two words and outside a comment: splitting
      there keeps the words before it. */
  lemma {:induction false} WordBeganInGap(input: string, n: nat)
    requires n <= |input|
    ensures var s := ScanTo(input, n);
            match s.start
            case None => s.word == "" && s.quote.None? && (s.mode.Between? || s.mode.Comment?)
            case Some(i) => i < n && ScanTo(input, i) == Gap(s.words)
                            && !s.mode.Between? && !s.mode.Comment?
  {
    if n > 0 {
      WordBeganInGap(input, n - 1);
    }
  }

  // ---- a quoted word reads back ------------------------------------------------------------

  lemma {:induction false} BareReadsBack(words: seq<string>, base: nat, word: string, n: nat)
    requires !NeedsQuotes(word) && 0 < n <= |word|
    ensures Resume(Gap(words), base, word, n) == Scan(Bare, words, word[..n], Some(base), None)
  {
    assert word[n - 1] in word;
    assert word[..n] == word[..n - 1] + [word[n - 1]];
    if n > 1 {
      BareReadsBack(words, base, word, n - 1);
    } else {
      assert Resume(Gap(words), base, word, 0) == Gap(words);
      assert word[..1] == [word[0]];
    }
  }

  lemma {:induction false} SingleReadsBack(s: Scan, base: nat, word: string, n: nat)
    requires s.mode.InSingle? && '\'' !in word && n <= |word|
    ensures Resume(s, base, word, n) == s.(word := s.word + word[..n])
  {
    if n > 0 {
      SingleReadsBack(s, base, word, n - 1);
      assert word[n - 1] in word;
      assert s.word + word[..n] == s.word + word[..n - 1] + [word[n - 1]];
    } else {
      assert s.word + word[..0] == s.word;
    }
  }

  lemma {:induction false} DoubleReadsBack(s: Scan, base: nat, word: string)
    requires s.mode.InDouble?
    ensures ResumeAll(s, base, Escaped(word)) == s.(word := s.word + word)
    decreases |word|
  {
    if word == "" {
      assert s.word + word == s.word;
    } else {
      var first := EscapedChar(word[0]);
      var s' := s.(word := s.word + [word[0]]);
      OneEscaped(s, base, word[0]);
      ResumeThen(s, base, first, Escaped(word[1..]));
      DoubleReadsBack(s', base + |first|, word[1..]);
      assert s.word + word == s'.word + word[1..];
    }
  }

  lemma OneEscaped(s: Scan, base: nat, c: char)
    requires s.mode.InDouble?
    ensures ResumeAll(s, base, EscapedChar(c)) == s.(word := s.word + [c])
  {
    if c == '"' || c == '\\' {
      ResumeOne(s, base, '\\');
      ResumeThen(s, base, "\\", [c]);
      ResumeOne(Advance(s, base, '\\'), base + 1, c);
      assert EscapedChar(c) == "\\" + [c];
    } else {
      ResumeOne(s, base, c);
    }
  }

  /** The quote a word is read back in. */
  function StyleOf(word: string, quote: Option<Quote>): Option<Quote> {
    if quote.None? && !NeedsQuotes(word) then None
    else if quote == Some(Single) && '\'' !in word then Some(Single)
    else Some(Double)
  }

  /** Between two opening and closing quote characters, `body` reading as `word`. */
  lemma WrappedReadsBack(words: seq<string>, base: nat, q: char, body: string, word: string)
    requires q == '\'' || q == '"'
    requires var s := AdvanceWord(Gap(words), base, q);
             ResumeAll(s, base + 1, body) == s.(word := word)
    ensures ResumeAll(Gap(words), base, [q] + body + [q]) ==
            Scan(Bare, words, word, Some(base), Some(if q == '"' then Double else Single))
  {
    var begun := AdvanceWord(Gap(words), base, q);
    ResumeOne(Gap(words), base, q);
    ResumeThen(Gap(words), base, [q], body);
    ResumeThen(Gap(words), base, [q] + body, [q]);
    ResumeOne(begun.(word := word), base + 1 + |body|, q);
  }

  /** Read between two words, a quoted word is one word: itself, in the style it was given. */
  lemma QuotedReadsBack(words: seq<string>, base: nat, word: string, quote: Option<Quote>)
    ensures var quoted := QuoteWord(word, quote);
            ResumeAll(Gap(words), base, quoted) ==
            if quoted == "" then Gap(words)
            else Scan(Bare, words, word, Some(base), StyleOf(word, quote))
    ensures QuoteWord(word, quote) == "" ==> word == ""
  {
    if quote.None? && !NeedsQuotes(word) {
      if word != "" {
        BareReadsBack(words, base, word, |word|);
        assert word[..|word|] == word;
      }
    } else if quote == Some(Single) && '\'' !in word {
      SingleReadsBack(AdvanceWord(Gap(words), base, '\''), base + 1, word, |word|);
      assert "" + word[..|word|] == word;
      WrappedReadsBack(words, base, '\'', word, word);
    } else {
      DoubleReadsBack(AdvanceWord(Gap(words), base, '"'), base + 1, word);
      assert "" + word == word;
      WrappedReadsBack(words, base, '"', Escaped(word), word);
    }
  }

  /** What is kept of an input whose last word has begun. */
  lemma {:induction false} KeptPrefix(input: string)
    requires ScanTo(input, |input|).start.Some?
    ensures var typed := Split(input);
            ScanTo(typed.prefix, |typed.prefix|) == Gap(typed.words[..|typed.words| - 1])
  {
    WordBeganInGap(input, |input|);
    var s := ScanTo(input, |input|);
    var i := s.start.value;
    var prefix := input[..i];
    assert input == prefix + input[i..];
    ScanPrefix(prefix, input[i..], i);
    assert (s.words + [s.word])[..|s.words|] == s.words;
  }

  lemma SplitOfScan(input: string, words: seq<string>, word: string, at: nat, quote: Option<Quote>)
    requires at <= |input| && ScanTo(input, |input|) == Scan(Bare, words, word, Some(at), quote)
    ensures Split(input) == SplitInput(input[..at], words + [word], quote)
  {
  }

  /** `quoted` reads as one word between two words: then so it does after `prefix`. */
  lemma {:induction false} SplitAfterGap(prefix: string, words: seq<string>, quoted: string, word: string,
                      style: Option<Quote>)
    requires ScanTo(prefix, |prefix|) == Gap(words)
    requires ResumeAll(Gap(words), |prefix|, quoted) ==
             if quoted == "" then Gap(words) else Scan(Bare, words, word, Some(|prefix|), style)
    requires quoted == "" ==> word == "" && style.None?
    ensures Split(prefix + quoted) == SplitInput(prefix, words + [word], style)
  {
    var line := prefix + quoted;
    ScanAfterGap(prefix, words, quoted);
    if quoted == "" {
      SplitInGap(line, words);
    } else {
      SplitOfScan(line, words, word, |prefix|, style);
    }
    assert line[..|prefix|] == prefix;
  }

  lemma {:induction false} ScanAfterGap(prefix: string, words: seq<string>, quoted: string)
    requires ScanTo(prefix, |prefix|) == Gap(words)
    ensures ScanTo(prefix + quoted, |prefix + quoted|) == ResumeAll(Gap(words), |prefix|, quoted)
  {
    ScanConcat(prefix, quoted, |quoted|);
  }

  lemma {:induction false} SplitInGap(input: string, words: seq<string>)
    requires ScanTo(input, |input|) == Gap(words)
    ensures Split(input) == SplitInput(input, words + [""], None)
  {
  }

  lemma RequotedInStyle(word: string, quote: Option<Quote>)
    ensures QuoteWord(word, StyleOf(word, quote)) == QuoteWord(word, quote)
    ensures QuoteWord(word, quote) == "" ==> StyleOf(word, quote) == None
  {
  }

  /** Completing the last word: for every input whose last word has begun, every word and every
      quote, the kept prefix and the quoted word split into the earlier words unchanged and then
      exactly that word; quoting it again in the style it was reread in gives the same text. */
  lemma {:induction false} CompletionReadsBack(input: string, word: string, quote: Option<Quote>)
    requires ScanTo(input, |input|).start.Some?
    ensures var typed := Split(input);
            var quoted := QuoteWord(word, quote);
            var reread := Split(typed.prefix + quoted);
            && reread.words == typed.words[..|typed.words| - 1] + [word]
            && reread.prefix == typed.prefix
            && QuoteWord(word, reread.lastWordQuote) == quoted
  {
    KeptPrefix(input);
    var typed := Split(input);
    var words := typed.words[..|typed.words| - 1];
    QuotedReadsBack(words, |typed.prefix|, word, quote);
    RequotedInStyle(word, quote);
    SplitAfterGap(typed.prefix, words, QuoteWord(word, quote), word, StyleOf(word, quote));
  }

  // ---- what counts as untyped --------------------------------------------------------------

  /** `last_word_is_untyped`. */
  predicate LastWordIsUntyped(split: SplitInput)
    requires split.words != []
  {
    split.lastWordQuote.None? && split.words[|split.words| - 1] == ""
  }

  /** Line continuations only: each a backslash and a newline. */
  predicate Continuations(text: string) {
    text == "" ||
    (|text| >= 2 && text[|text| - 2..] == "\\\n" && Continuations(text[..|text| - 2]))
  }

  /** The last characters of a text that ends in an escape or in a quote. */
  lemma {:induction false} ModeFacts(input: string, n: nat)
    requires n <= |input|
    ensures var s := ScanTo(input, n);
            && (s.mode.BareEscape? ==> n > 0 && input[n - 1] == '\\')
            && (s.mode.InSingle? || s.mode.InDouble? || s.mode.DoubleEscape? ==> s.quote.Some?)
  {
    if n > 0 {
      ModeFacts(input, n - 1);
    }
  }

  /** Whether the last word, begun by the first `n` characters, has neither content nor quotes. */
  predicate Silent(s: Scan) {
    s.word == "" && s.quote.None?
  }

  /** What a silent word can have been so far, by whether it stands in an escape. */
  predicate SilentText(text: string, mode: Mode) {
    if mode.Bare? then Continuations(text)
    else mode.BareEscape? && text != "" && text[|text| - 1] == '\\' && Continuations(text[..|text| - 1])
  }

  lemma {:induction false} ContinuationsSnoc(text: string, c: char)
    ensures Continuations(text + [c]) <==>
            c == '\n' && text != "" && text[|text| - 1] == '\\' && Continuations(text[..|text| - 1])
  {
    var t := text + [c];
    if text != "" {
      assert t[..|t| - 2] == text[..|text| - 1];
      assert t[|t| - 2..] == [text[|text| - 1], c];
    }
  }

  /** One more character of a word that stays silent: it was silent before, and the character opens
      an escape or is a newline that ends one. */
  lemma SilentStep(before: Scan, i: nat, c: char)
    requires before.start.None? ==> Silent(before)
    requires before.start.Some? ==> !before.mode.Between? && !before.mode.Comment?
    requires before.mode.InSingle? || before.mode.InDouble? || before.mode.DoubleEscape? ==>
             before.quote.Some?
    requires var s := Advance(before, i, c); s.start.Some? && Silent(s)
    ensures var s := Advance(before, i, c);
            && Silent(before)
            && match before.mode
               case BareEscape => c == '\n' && s.mode.Bare? && s.start == before.start
               case Bare => c == '\\' && s.mode.BareEscape?
                            && s.start == OrElse(before.start, i)
               case _ => before.mode.Between? && c == '\\' && s.mode.BareEscape?
                         && s.start == OrElse(before.start, i)
  {
  }

  lemma {:induction false} SilentScan(input: string, n: nat)
    requires n <= |input| && ScanTo(input, n).start.Some? && Silent(ScanTo(input, n))
    ensures var s := ScanTo(input, n);
            s.start.value < n && SilentText(input[s.start.value..n], s.mode)
  {
    ModeFacts(input, n - 1);
    WordBeganInGap(input, n - 1);
    var before := ScanTo(input, n - 1);
    if before.start.Some? {
      SilentStep(before, n - 1, input[n - 1]);
      SilentScan(input, n - 1);
    }
    SilentOneMore(input, n, before);
  }

  /** `before` has read all but the last of `n` characters. */
  lemma SilentOneMore(input: string, n: nat, before: Scan)
    requires 0 < n <= |input|
    requires if before.start.None? then Silent(before) else
             && !before.mode.Between? && !before.mode.Comment?
             && before.start.value < n - 1
             && SilentText(input[before.start.value..n - 1], before.mode)
    requires before.mode.InSingle? || before.mode.InDouble? || before.mode.DoubleEscape? ==>
             before.quote.Some?
    requires before.start.None? ==> before.mode.Between? || before.mode.Comment?
    requires var s := Advance(before, n - 1, input[n - 1]); s.start.Some? && Silent(s)
    ensures var s := Advance(before, n - 1, input[n - 1]);
            s.start.value < n && SilentText(input[s.start.value..n], s.mode)
  {
    var c, s := input[n - 1], Advance(before, n - 1, input[n - 1]);
    SilentStep(before, n - 1, c);
    var i := s.start.value;
    assert i <= n - 1;
    SilentGrows(input[i..n - 1], c, before.mode, s.mode, before.start.Some?);
    assert input[i..n] == input[i..n - 1] + [c];
  }

  /** The silent text with one more character; `begun`: it is not the first. */
  lemma SilentGrows(text: string, c: char, before: Mode, mode: Mode, begun: bool)
    requires if begun then SilentText(text, before) else text == ""
    requires match before
             case BareEscape => begun && c == '\n' && mode.Bare?
             case _ => (begun ==> before.Bare?) && c == '\\' && mode.BareEscape?
    ensures SilentText(text + [c], mode)
  {
    SilentSnoc(text, c);
  }

  lemma SilentSnoc(text: string, c: char)
    ensures c == '\\' && SilentText(text, Bare) ==> SilentText(text + [c], BareEscape)
    ensures c == '\n' && SilentText(text, BareEscape) ==> SilentText(text + [c], Bare)
  {
    assert (text + [c])[..|text + [c]| - 1] == text;
    ContinuationsSnoc(text, c);
  }

  lemma {:induction false} ContinuationsAreSilent(input: string, i: nat, n: nat, words: seq<string>)
    requires i <= n <= |input| && ScanTo(input, i) == Gap(words)
    requires Continuations(input[i..n])
    ensures ScanTo(input, n) == if n == i then Gap(words) else Scan(Bare, words, "", Some(i), None)
    decreases n
  {
    if n > i {
      LastContinuation(input, i, n);
      ContinuationsAreSilent(input, i, n - 2, words);
      ContinuationStep(ScanTo(input, n - 2), n - 2);
    }
  }

  lemma LastContinuation(input: string, i: nat, n: nat)
    requires i < n <= |input| && Continuations(input[i..n])
    ensures i + 2 <= n && Continuations(input[i..n - 2])
    ensures input[n - 2] == '\\' && input[n - 1] == '\n'
  {
    var text := input[i..n];
    assert text[..|text| - 2] == input[i..n - 2];
    assert text[|text| - 2..] == [input[n - 2], input[n - 1]];
  }

  lemma ContinuationStep(s: Scan, i: nat)
    requires s.mode.Between? || s.mode.Bare?
    ensures Advance(Advance(s, i, '\\'), i + 1, '\n') == s.(mode := Bare, start := OrElse(s.start, i))
  {
  }

  /** The last word counts as untyped exactly when nothing was typed of it but line continuations
      and a dangling backslash: a word begun by a lone backslash is not offered completions. */
  lemma {:induction false} UntypedExactly(input: string)
    requires ScanTo(input, |input|).start.Some?
    ensures var split := Split(input);
            LastWordIsUntyped(split) <==> Unspoken(input[|split.prefix|..])
  {
    WordBeganInGap(input, |input|);
    StartBound(input, |input|);
    var i := ScanTo(input, |input|).start.value;
    if Silent(ScanTo(input, |input|)) {
      SilentIsUnspoken(input, i);
    } else if Unspoken(input[i..]) {
      assert input[i..] == input[i..|input|];
      UnspokenIsSilent(input, i, |input|, ScanTo(input, |input|).words);
    }
  }

  /** A word of line continuations with or without a dangling backslash. */
  predicate Unspoken(text: string) {
    Continuations(text) ||
    (text != "" && text[|text| - 1] == '\\' && Continuations(text[..|text| - 1]))
  }

  lemma {:induction false} SilentIsUnspoken(input: string, i: nat)
    requires ScanTo(input, |input|).start == Some(i) && Silent(ScanTo(input, |input|))
    ensures i < |input| && Unspoken(input[i..])
  {
    SilentScan(input, |input|);
    assert input[i..|input|] == input[i..];
  }

  lemma UnspokenIsSilent(input: string, i: nat, n: nat, words: seq<string>)
    requires i < n <= |input| && ScanTo(input, i) == Gap(words)
    requires Unspoken(input[i..n])
    ensures Silent(ScanTo(input, n))
  {
    var text := input[i..n];
    if text[|text| - 1] == '\\' && Continuations(text[..|text| - 1]) {
      assert text[..|text| - 1] == input[i..n - 1];
      DanglingIsSilent(input, i, n, words);
    } else {
      ContinuationsAreSilent(input, i, n, words);
    }
  }

  lemma {:induction false} DanglingIsSilent(input: string, i: nat, n: nat, words: seq<string>)
    requires i < n <= |input| && ScanTo(input, i) == Gap(words)
    requires Continuations(input[i..n - 1]) && input[n - 1] == '\\'
    ensures Silent(ScanTo(input, n))
  {
    ContinuationsAreSilent(input, i, n - 1, words);
    DanglingStep(ScanTo(input, n - 1), n - 1);
    ScanSnoc(input, n);
  }

  lemma ScanSnoc(input: string, n: nat)
    requires 0 < n <= |input|
    ensures ScanTo(input, n) == Advance(ScanTo(input, n - 1), n - 1, input[n - 1])
  {
  }

  lemma DanglingStep(s: Scan, i: nat)
    requires Silent(s) && (s.mode.Between? || s.mode.Bare?)
    ensures Silent(Advance(s, i, '\\'))
  {
  }

  /** With no last word begun, the whole input is kept and the last word is untyped. */
  lemma {:induction false} NothingBegun(input: string)
    requires ScanTo(input, |input|).start.None?
    ensures Split(input).prefix == input && LastWordIsUntyped(Split(input))
  {
    WordBeganInGap(input, |input|);
  }
}
