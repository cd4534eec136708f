/** What a line of shell words means, piece by piece (`completion.rs`): every input is a sequence of
    blanks, comments and words of quoted and unquoted pieces, the last of which may be unfinished, and
    `split_input` returns what the pieces mean. */
module ShellGrammar {
  import opened Prelude
  import opened ShellWords

  /** Between double quotes: a character, or a backslash with the one it precedes. */
  datatype Item = Literal(c: char) | Pair(c: char)

  /** The last four are unfinished: the input ends in them. */
  datatype Piece =
    | Plain(c: char)
    | Escape(c: char)
    | Singles(text: string)
    | Doubles(items: seq<Item>)
    | Dangling
    | OpenSingles(text: string)
    | OpenDoubles(items: seq<Item>)
    | DanglingInDoubles(items: seq<Item>)

  datatype Token =
    | Blank(c: char)
    | Remark(text: string, closed: bool)
    | Word(pieces: seq<Piece>)

  // ---- how they are written ----------------------------------------------------------------

  function ItemText(item: Item): string {
    match item
    case Literal(c) => [c]
    case Pair(c) => ['\\', c]
  }

  function ItemsText(items: seq<Item>): string {
    if items == [] then ""
    else ItemsText(items[..|items| - 1]) + ItemText(items[|items| - 1])
  }

  function PieceText(piece: Piece): string {
    match piece
    case Plain(c) => [c]
    case Escape(c) => "\\" + [c]
    case Singles(text) => "'" + text + "'"
    case Doubles(items) => "\"" + ItemsText(items) + "\""
    case Dangling => "\\"
    case OpenSingles(text) => "'" + text
    case OpenDoubles(items) => "\"" + ItemsText(items)
    case DanglingInDoubles(items) => "\"" + ItemsText(items) + "\\"
  }

  function PiecesText(pieces: seq<Piece>): string {
    if pieces == [] then ""
    else PiecesText(pieces[..|pieces| - 1]) + PieceText(pieces[|pieces| - 1])
  }

  function TokenText(token: Token): string {
    match token
    case Blank(c) => [c]
    case Remark(text, closed) => "#" + text + if closed then "\n" else ""
    case Word(pieces) => PiecesText(pieces)
  }

  function LineText(tokens: seq<Token>): string {
    if tokens == [] then ""
    else LineText(tokens[..|tokens| - 1]) + TokenText(tokens[|tokens| - 1])
  }

  // ---- what they mean ----------------------------------------------------------------------

  /** In double quotes a backslash stands for itself but before `$`, a backquote, `"`, another one, and
      a newline, which it removes. */
  function ItemMeaning(item: Item): string {
    match item
    case Literal(c) => [c]
    case Pair(c) =>
      if c == '\n' then ""
      else if c in {'$', '`', '"', '\\'} then [c]
      else ['\\', c]
  }

  function ItemsMeaning(items: seq<Item>): string {
    if items == [] then ""
    else ItemsMeaning(items[..|items| - 1]) + ItemMeaning(items[|items| - 1])
  }

  /** Outside quotes a backslash makes the next character an ordinary one, and removes a newline. */
  function PieceMeaning(piece: Piece): string {
    match piece
    case Plain(c) => [c]
    case Escape(c) => if c == '\n' then "" else [c]
    case Singles(text) => text
    case Doubles(items) => ItemsMeaning(items)
    case Dangling => ""
    case OpenSingles(text) => text
    case OpenDoubles(items) => ItemsMeaning(items)
    case DanglingInDoubles(items) => ItemsMeaning(items)
  }

  function PiecesMeaning(pieces: seq<Piece>): string {
    if pieces == [] then ""
    else PiecesMeaning(pieces[..|pieces| - 1]) + PieceMeaning(pieces[|pieces| - 1])
  }

  function PieceQuote(piece: Piece): Option<Quote> {
    match piece
    case Singles(_) => Some(Single)
    case OpenSingles(_) => Some(Single)
    case Doubles(_) => Some(Double)
    case OpenDoubles(_) => Some(Double)
    case DanglingInDoubles(_) => Some(Double)
    case _ => None
  }

  /** The quotes a word was first typed in. */
  function FirstQuote(pieces: seq<Piece>): Option<Quote> {
    if pieces == [] then None
    else
      var before := FirstQuote(pieces[..|pieces| - 1]);
      if before.Some? then before else PieceQuote(pieces[|pieces| - 1])
  }

  function WordsOf(tokens: seq<Token>): seq<string> {
    if tokens == [] then []
    else
      var last := tokens[|tokens| - 1];
      WordsOf(tokens[..|tokens| - 1]) + if last.Word? then [PiecesMeaning(last.pieces)] else []
  }

  /** The characters that end a word outside quotes. */
  predicate Separates(c: char) {
    c in {' ', '\t', '\n'}
  }

  // ---- what is a line ----------------------------------------------------------------------

  predicate ItemOk(item: Item) {
    item.Literal? ==> item.c != '"' && item.c != '\\'
  }

  predicate ItemsOk(items: seq<Item>) {
    forall k :: 0 <= k < |items| ==> ItemOk(items[k])
  }

  predicate PieceOk(piece: Piece) {
    match piece
    case Plain(c) => !Separates(c) && c != '\'' && c != '"' && c != '\\'
    case Escape(_) => true
    case Singles(text) => '\'' !in text
    case Doubles(items) => ItemsOk(items)
    case Dangling => true
    case OpenSingles(text) => '\'' !in text
    case OpenDoubles(items) => ItemsOk(items)
    case DanglingInDoubles(items) => ItemsOk(items)
  }

  predicate Finished(piece: Piece) {
    piece.Plain? || piece.Escape? || piece.Singles? || piece.Doubles?
  }

  /** A word begins with anything but a plain `#`, and only its last piece may be unfinished. */
  predicate WordOk(pieces: seq<Piece>) {
    && pieces != [] && pieces[0] != Plain('#')
    && (forall k :: 0 <= k < |pieces| ==> PieceOk(pieces[k]))
    && (forall k :: 0 <= k < |pieces| - 1 ==> Finished(pieces[k]))
  }

  predicate TokenOk(token: Token) {
    match token
    case Blank(c) => Separates(c)
    case Remark(text, _) => '\n' !in text
    case Word(pieces) => WordOk(pieces)
  }

  /** Whether `next` may follow: only a blank ends a word, and nothing follows what is unfinished. */
  predicate Follows(token: Token, next: Token) {
    match token
    case Blank(_) => true
    case Remark(_, closed) => closed
    case Word(pieces) => next.Blank? && pieces != [] && Finished(pieces[|pieces| - 1])
  }

  predicate LineOk(tokens: seq<Token>) {
    && (forall k :: 0 <= k < |tokens| ==> TokenOk(tokens[k]))
    && (forall k :: 0 < k < |tokens| ==> Follows(tokens[k - 1], tokens[k]))
  }

  // ---- the scan of a piece -----------------------------------------------------------------

  lemma {:induction false} OneItem(s: Scan, base: nat, item: Item)
    requires s.mode.InDouble? && ItemOk(item)
    ensures ResumeAll(s, base, ItemText(item)) == s.(word := s.word + ItemMeaning(item))
  {
    match item
    case Literal(c) => ResumeOne(s, base, c);
    case Pair(c) =>
      ResumeOne(s, base, '\\');
      ResumeThen(s, base, "\\", [c]);
      ResumeOne(Advance(s, base, '\\'), base + 1, c);
      assert ItemText(item) == "\\" + [c];
  }

  lemma {:induction false} ItemsScan(s: Scan, base: nat, items: seq<Item>)
    requires s.mode.InDouble? && ItemsOk(items)
    ensures ResumeAll(s, base, ItemsText(items)) == s.(word := s.word + ItemsMeaning(items))
    decreases |items|
  {
    if items == [] {
      assert s.word + "" == s.word;
    } else {
      var init, last := items[..|items| - 1], items[|items| - 1];
      ItemsScan(s, base, init);
      ResumeThen(s, base, ItemsText(init), ItemText(last));
      OneItem(s.(word := s.word + ItemsMeaning(init)), base + |ItemsText(init)|, last);
      assert s.word + ItemsMeaning(init) + ItemMeaning(last) == s.word + ItemsMeaning(items);
    }
  }

  function ModeAfter(piece: Piece): Mode {
    match piece
    case Dangling => BareEscape
    case OpenSingles(_) => InSingle
    case OpenDoubles(_) => InDouble
    case DanglingInDoubles(_) => DoubleEscape
    case _ => Bare
  }

  /** In a word, or between two words before a piece that begins one. */
  predicate AtPiece(s: Scan, piece: Piece) {
    s.mode.Bare? || (s.mode.Between? && piece != Plain('#'))
  }

  function AfterPiece(s: Scan, base: nat, piece: Piece): Scan {
    Scan(ModeAfter(piece), s.words, s.word + PieceMeaning(piece), OrElse(s.start, base),
         if s.quote.Some? then s.quote else PieceQuote(piece))
  }

  /** The opening quote character of a piece. */
  lemma {:induction false} Opens(s: Scan, base: nat, piece: Piece, body: string)
    requires AtPiece(s, piece) && PieceQuote(piece).Some?
    ensures var single := PieceQuote(piece) == Some(Single);
            ResumeAll(s, base, (if single then "'" else "\"") + body) ==
            ResumeAll(Scan(if single then InSingle else InDouble, s.words, s.word, OrElse(s.start, base),
                           OrElse(s.quote, PieceQuote(piece).value)),
                      base + 1, body)
  {
    var q := if PieceQuote(piece) == Some(Single) then '\'' else '"';
    ResumeOne(s, base, q);
    ResumeThen(s, base, [q], body);
  }

  lemma {:induction false} SinglesScan(s: Scan, base: nat, piece: Piece)
    requires AtPiece(s, piece) && PieceOk(piece) && (piece.Singles? || piece.OpenSingles?)
    ensures ResumeAll(s, base, PieceText(piece)) == AfterPiece(s, base, piece)
  {
    var begun := Scan(InSingle, s.words, s.word, OrElse(s.start, base), OrElse(s.quote, Single));
    var body := if piece.Singles? then piece.text + "'" else piece.text;
    Opens(s, base, piece, body);
    Associates("'", piece.text, "'");
    SinglesEnd(begun, base + 1, piece.text, body);
  }

  lemma {:induction false} SinglesEnd(s: Scan, base: nat, text: string, body: string)
    requires s.mode.InSingle? && '\'' !in text
    ensures body == text ==> ResumeAll(s, base, body) == s.(word := s.word + text)
    ensures body == text + "'" ==> ResumeAll(s, base, body) == s.(word := s.word + text, mode := Bare)
  {
    SinglesText(s, base, text);
    EndOfSingles(s, base, text);
  }

  lemma {:induction false} SinglesText(s: Scan, base: nat, text: string)
    requires s.mode.InSingle? && '\'' !in text
    ensures ResumeAll(s, base, text) == s.(word := s.word + text)
  {
    SingleReadsBack(s, base, text, |text|);
    assert text[..|text|] == text;
  }

  lemma {:induction false} EndOfSingles(s: Scan, base: nat, text: string)
    requires s.mode.InSingle? && '\'' !in text
    ensures ResumeAll(s, base, text + "'") == s.(word := s.word + text, mode := Bare)
  {
    SinglesText(s, base, text);
    ResumeThen(s, base, text, "'");
    ResumeOne(s.(word := s.word + text), base + |text|, '\'');
  }

  lemma {:induction false} DoublesScan(s: Scan, base: nat, piece: Piece)
    requires AtPiece(s, piece) && PieceOk(piece)
    requires piece.Doubles? || piece.OpenDoubles? || piece.DanglingInDoubles?
    ensures ResumeAll(s, base, PieceText(piece)) == AfterPiece(s, base, piece)
  {
    var begun := Scan(InDouble, s.words, s.word, OrElse(s.start, base), OrElse(s.quote, Double));
    var text := ItemsText(piece.items);
    ItemsScan(begun, base + 1, piece.items);
    if piece.OpenDoubles? {
      Opens(s, base, piece, text);
    } else {
      var c := if piece.Doubles? then '"' else '\\';
      Opens(s, base, piece, text + [c]);
      assert PieceText(piece) == "\"" + (text + [c]);
      EndOfDoubles(begun, base + 1, text, ItemsMeaning(piece.items), c);
    }
  }

  lemma {:induction false} EndOfDoubles(s: Scan, base: nat, text: string, meaning: string, c: char)
    requires s.mode.InDouble? && ResumeAll(s, base, text) == s.(word := s.word + meaning)
    requires c == '"' || c == '\\'
    ensures ResumeAll(s, base, text + [c]) ==
            s.(word := s.word + meaning, mode := if c == '"' then Bare else DoubleEscape)
  {
    ResumeThen(s, base, text, [c]);
    ResumeOne(s.(word := s.word + meaning), base + |text|, c);
  }

  lemma {:induction false} PieceScan(s: Scan, base: nat, piece: Piece)
    requires AtPiece(s, piece) && PieceOk(piece)
    ensures ResumeAll(s, base, PieceText(piece)) == AfterPiece(s, base, piece)
  {
    match piece
    case Plain(c) => ResumeOne(s, base, c);
    case Escape(c) => EscapeScan(s, base, c);
    case Dangling =>
      ResumeOne(s, base, '\\');
      assert s.word + "" == s.word;
    case Singles(_) => SinglesScan(s, base, piece);
    case OpenSingles(_) => SinglesScan(s, base, piece);
    case _ => DoublesScan(s, base, piece);
  }

  lemma {:induction false} EscapeScan(s: Scan, base: nat, c: char)
    requires AtPiece(s, Escape(c))
    ensures ResumeAll(s, base, PieceText(Escape(c))) == AfterPiece(s, base, Escape(c))
  {
    ResumeOne(s, base, '\\');
    ResumeThen(s, base, "\\", [c]);
    ResumeOne(Advance(s, base, '\\'), base + 1, c);
    assert s.word + "" == s.word;
  }

  // ---- the scan of a word and of a line ----------------------------------------------------

  function WordScan(words: seq<string>, base: nat, pieces: seq<Piece>): Scan
    requires pieces != []
  {
    Scan(ModeAfter(pieces[|pieces| - 1]), words, PiecesMeaning(pieces), Some(base), FirstQuote(pieces))
  }

  lemma {:induction false} WordScans(words: seq<string>, base: nat, pieces: seq<Piece>)
    requires WordOk(pieces)
    ensures ResumeAll(Gap(words), base, PiecesText(pieces)) == WordScan(words, base, pieces)
    decreases |pieces|
  {
    var init, last := pieces[..|pieces| - 1], pieces[|pieces| - 1];
    var text := PiecesText(init);
    if init == [] {
      assert last == pieces[0] && text == "";
      PieceAfter(words, base, "", Gap(words), last);
    } else {
      assert Finished(pieces[|pieces| - 2]);
      WordScans(words, base, init);
      PieceAfter(words, base, text, WordScan(words, base, init), last);
    }
    WordScanSnoc(words, base, pieces, base + |text|);
  }

  lemma {:induction false} PieceAfter(words: seq<string>, base: nat, text: string, s: Scan, piece: Piece)
    requires ResumeAll(Gap(words), base, text) == s && AtPiece(s, piece) && PieceOk(piece)
    ensures ResumeAll(Gap(words), base, text + PieceText(piece)) == AfterPiece(s, base + |text|, piece)
  {
    ResumeThen(Gap(words), base, text, PieceText(piece));
    PieceScan(s, base + |text|, piece);
  }

  lemma {:induction false} WordScanSnoc(words: seq<string>, base: nat, pieces: seq<Piece>, at: nat)
    requires pieces != [] && (|pieces| == 1 ==> at == base)
    ensures var init, last := pieces[..|pieces| - 1], pieces[|pieces| - 1];
            WordScan(words, base, pieces) ==
            AfterPiece(if init == [] then Gap(words) else WordScan(words, base, init), at, last)
  {
    if |pieces| == 1 {
      assert pieces[..0] == [] && PiecesMeaning([]) == "" && FirstQuote([]) == None;
      assert "" + PieceMeaning(pieces[0]) == PieceMeaning(pieces[0]);
    }
  }

  /** The scan at the end of a line. */
  function LineScan(tokens: seq<Token>): Scan {
    if tokens == [] then Gap([])
    else
      var init, last := tokens[..|tokens| - 1], tokens[|tokens| - 1];
      match last
      case Blank(_) => Gap(WordsOf(tokens))
      case Remark(_, closed) => Gap(WordsOf(tokens)).(mode := if closed then Between else Comment)
      case Word(pieces) =>
        if pieces == [] then Gap([]) else WordScan(WordsOf(init), |LineText(init)|, pieces)
  }

  lemma {:induction false} RemarkScan(words: seq<string>, base: nat, text: string, n: nat)
    requires '\n' !in text && n <= |text|
    ensures Resume(Gap(words).(mode := Comment), base, text, n) == Gap(words).(mode := Comment)
  {
    if n > 0 {
      RemarkScan(words, base, text, n - 1);
      assert text[n - 1] in text;
    }
  }

  lemma {:induction false} RemarkScans(words: seq<string>, base: nat, text: string, closed: bool)
    requires '\n' !in text
    ensures ResumeAll(Gap(words), base, TokenText(Remark(text, closed))) ==
            Gap(words).(mode := if closed then Between else Comment)
  {
    var begun := Gap(words).(mode := Comment);
    ResumeOne(Gap(words), base, '#');
    ResumeThen(Gap(words), base, "#", text);
    RemarkScan(words, base + 1, text, |text|);
    if closed {
      ResumeThen(Gap(words), base, "#" + text, "\n");
      ResumeOne(begun, base + 1 + |text|, '\n');
    } else {
      assert "#" + text + "" == "#" + text;
    }
  }

  /** The scan of what comes before a token: a finished word, which only a blank follows, or a gap. */
  lemma {:induction false} BeforeToken(tokens: seq<Token>)
    requires LineOk(tokens) && tokens != []
    ensures var init, last := tokens[..|tokens| - 1], tokens[|tokens| - 1];
            LineOk(init) && (LineScan(init) == Gap(WordsOf(init)) ||
                             (last.Blank? && LineScan(init).mode.Bare?
                              && LineScan(init).words + [LineScan(init).word] == WordsOf(init)))
  {
    var init, last := tokens[..|tokens| - 1], tokens[|tokens| - 1];
    if init != [] {
      var before := init[|init| - 1];
      assert Follows(tokens[|tokens| - 2], tokens[|tokens| - 1]) && TokenOk(tokens[|tokens| - 2]);
      assert before == tokens[|tokens| - 2];
    }
  }

  lemma {:induction false} LineScans(tokens: seq<Token>)
    requires LineOk(tokens)
    ensures ScanTo(LineText(tokens), |LineText(tokens)|) == LineScan(tokens)
    decreases |tokens|
  {
    if tokens != [] {
      var init, last := tokens[..|tokens| - 1], tokens[|tokens| - 1];
      var before, text := LineText(init), TokenText(last);
      BeforeToken(tokens);
      LineScans(init);
      TokenScans(LineScan(init), WordsOf(init), |before|, last);
      ScanOn(LineText(tokens), before, text, LineScan(init));
      AtLineEnd(tokens);
    }
  }

  lemma {:induction false} ScanOn(line: string, before: string, text: string, s: Scan)
    requires line == before + text && ScanTo(before, |before|) == s
    ensures ScanTo(line, |line|) == ResumeAll(s, |before|, text)
  {
    ScanConcat(before, text, |text|);
  }

  lemma {:induction false} AtLineEnd(tokens: seq<Token>)
    requires tokens != [] && TokenOk(tokens[|tokens| - 1])
    ensures var init, last := tokens[..|tokens| - 1], tokens[|tokens| - 1];
            LineScan(tokens) == TokenScan(WordsOf(init), |LineText(init)|, last)
  {
  }

  function TokenScan(words: seq<string>, base: nat, token: Token): Scan
    requires TokenOk(token)
  {
    match token
    case Blank(_) => Gap(words)
    case Remark(_, closed) => Gap(words).(mode := if closed then Between else Comment)
    case Word(pieces) => WordScan(words, base, pieces)
  }

  lemma {:induction false} TokenScans(s: Scan, words: seq<string>, base: nat, token: Token)
    requires TokenOk(token)
    requires s == Gap(words) || (token.Blank? && s.mode.Bare? && s.words + [s.word] == words)
    ensures ResumeAll(s, base, TokenText(token)) == TokenScan(words, base, token)
  {
    match token
    case Blank(c) => ResumeOne(s, base, c);
    case Remark(text, closed) => RemarkScans(words, base, text, closed);
    case Word(pieces) => WordScans(words, base, pieces);
  }

  // ---- what a line splits into -------------------------------------------------------------

  /** What a line means: its words, and if it does not end in one, an empty last word; everything
      before the last word; and the quotes that was first typed in. */
  function Meaning(tokens: seq<Token>): SplitInput {
    if tokens != [] && tokens[|tokens| - 1].Word?
    then SplitInput(LineText(tokens[..|tokens| - 1]), WordsOf(tokens),
                    FirstQuote(tokens[|tokens| - 1].pieces))
    else SplitInput(LineText(tokens), WordsOf(tokens) + [""], None)
  }

  /** A line splits into what its pieces mean. */
  lemma {:induction false} SplitIsMeaning(tokens: seq<Token>)
    requires LineOk(tokens)
    ensures Split(LineText(tokens)) == Meaning(tokens)
  {
    LineScans(tokens);
    if tokens != [] && tokens[|tokens| - 1].Word? {
      var init := tokens[..|tokens| - 1];
      assert LineText(tokens)[..|LineText(init)|] == LineText(init);
      assert TokenOk(tokens[|tokens| - 1]);
    }
  }

  // ---- every input is a line ---------------------------------------------------------------

  function Begin(c: char): Piece {
    if c == '\'' then OpenSingles("")
    else if c == '"' then OpenDoubles([])
    else if c == '\\' then Dangling
    else Plain(c)
  }

  function GrowPiece(piece: Piece, c: char): Piece
    requires !Finished(piece)
  {
    match piece
    case Dangling => Escape(c)
    case OpenSingles(text) => if c == '\'' then Singles(text) else OpenSingles(text + [c])
    case OpenDoubles(items) =>
      if c == '"' then Doubles(items)
      else if c == '\\' then DanglingInDoubles(items)
      else OpenDoubles(items + [Literal(c)])
    case DanglingInDoubles(items) => OpenDoubles(items + [Pair(c)])
  }

  function GrowWord(pieces: seq<Piece>, c: char): seq<Piece>
    requires pieces != []
  {
    var init, last := pieces[..|pieces| - 1], pieces[|pieces| - 1];
    if Finished(last) then pieces + [Begin(c)] else init + [GrowPiece(last, c)]
  }

  function BeginToken(c: char): Token {
    if Separates(c) then Blank(c)
    else if c == '#' then Remark("", false)
    else Word([Begin(c)])
  }

  /** Whether the next character still belongs to the token. */
  predicate GoesOn(token: Token, c: char) {
    match token
    case Blank(_) => false
    case Remark(_, closed) => !closed
    case Word(pieces) => pieces != [] && !(Finished(pieces[|pieces| - 1]) && Separates(c))
  }

  function GrowToken(token: Token, c: char): Token
    requires GoesOn(token, c)
  {
    match token
    case Remark(text, _) => Remark(if c == '\n' then text else text + [c], c == '\n')
    case Word(pieces) => Word(GrowWord(pieces, c))
  }

  function Grow(tokens: seq<Token>, c: char): seq<Token> {
    if tokens != [] && GoesOn(tokens[|tokens| - 1], c)
    then tokens[..|tokens| - 1] + [GrowToken(tokens[|tokens| - 1], c)]
    else tokens + [BeginToken(c)]
  }

  lemma {:induction false} ItemsSnoc(items: seq<Item>, item: Item)
    ensures ItemsText(items + [item]) == ItemsText(items) + ItemText(item)
  {
    assert (items + [item])[..|items|] == items;
  }

  lemma {:induction false} PiecesSnoc(pieces: seq<Piece>, piece: Piece)
    ensures PiecesText(pieces + [piece]) == PiecesText(pieces) + PieceText(piece)
  {
    assert (pieces + [piece])[..|pieces|] == pieces;
  }

  lemma {:induction false} LineSnoc(tokens: seq<Token>, token: Token)
    ensures LineText(tokens + [token]) == LineText(tokens) + TokenText(token)
  {
    assert (tokens + [token])[..|tokens|] == tokens;
  }

  lemma {:induction false} GrowPieceOk(piece: Piece, c: char)
    requires !Finished(piece) && PieceOk(piece)
    ensures PieceOk(GrowPiece(piece, c)) && GrowPiece(piece, c) != Plain('#')
  {
  }

  lemma {:induction false} GrowPieceText(piece: Piece, c: char)
    requires !Finished(piece)
    ensures PieceText(GrowPiece(piece, c)) == PieceText(piece) + [c]
  {
    match piece
    case OpenSingles(_) =>
    case Dangling =>
    case OpenDoubles(items) => GrowDoublesText(items, c);
    case DanglingInDoubles(items) =>
      ItemsSnoc(items, Pair(c));
      assert "\"" + (ItemsText(items) + ['\\', c]) == "\"" + ItemsText(items) + "\\" + [c];
  }

  lemma {:induction false} GrowDoublesText(items: seq<Item>, c: char)
    ensures PieceText(GrowPiece(OpenDoubles(items), c)) == "\"" + ItemsText(items) + [c]
  {
    if c != '"' && c != '\\' {
      ItemsSnoc(items, Literal(c));
      Associates("\"", ItemsText(items), [c]);
    }
  }

  lemma {:induction false} BeginText(c: char)
    ensures PieceText(Begin(c)) == [c] && (!Separates(c) ==> PieceOk(Begin(c)))
  {
    assert "\"" + ItemsText([]) == "\"";
  }

  lemma {:induction false} WordWith(init: seq<Piece>, piece: Piece)
    requires init == [] || (WordOk(init) && Finished(init[|init| - 1]))
    requires PieceOk(piece) && (init == [] ==> piece != Plain('#'))
    ensures WordOk(init + [piece])
  {
    var pieces := init + [piece];
    forall k | 0 <= k < |pieces| - 1
      ensures Finished(pieces[k])
    {
      assert pieces[k] == init[k];
    }
  }

  lemma {:induction false} InitOfWord(pieces: seq<Piece>)
    requires WordOk(pieces)
    ensures var init := pieces[..|pieces| - 1];
            init == [] || (WordOk(init) && Finished(init[|init| - 1]))
  {
    assert |pieces| > 1 ==> Finished(pieces[|pieces| - 2]);
  }

  lemma {:induction false} GrowWordOk(pieces: seq<Piece>, c: char)
    requires WordOk(pieces) && !(Finished(pieces[|pieces| - 1]) && Separates(c))
    ensures WordOk(GrowWord(pieces, c))
  {
    var init, last := pieces[..|pieces| - 1], pieces[|pieces| - 1];
    if Finished(last) {
      BeginText(c);
      WordWith(pieces, Begin(c));
    } else {
      GrowPieceOk(last, c);
      InitOfWord(pieces);
      WordWith(init, GrowPiece(last, c));
    }
  }

  lemma {:induction false} GrowWordText(pieces: seq<Piece>, c: char)
    requires pieces != []
    ensures PiecesText(GrowWord(pieces, c)) == PiecesText(pieces) + [c]
  {
    var init, last := pieces[..|pieces| - 1], pieces[|pieces| - 1];
    if Finished(last) {
      BeginText(c);
      PiecesSnoc(pieces, Begin(c));
    } else {
      GrowPieceText(last, c);
      PiecesSnoc(init, GrowPiece(last, c));
      Associates(PiecesText(init), PieceText(last), [c]);
    }
  }

  lemma {:induction false} GrowTokenText(token: Token, c: char)
    requires TokenOk(token) && GoesOn(token, c)
    ensures TokenOk(GrowToken(token, c)) && TokenText(GrowToken(token, c)) == TokenText(token) + [c]
  {
    if token.Word? {
      GrowWordOk(token.pieces, c);
      GrowWordText(token.pieces, c);
    }
  }

  lemma {:induction false} BeginTokenText(c: char)
    ensures TokenOk(BeginToken(c)) && TokenText(BeginToken(c)) == [c]
  {
    BeginText(c);
    PiecesSnoc([], Begin(c));
    assert [] + [Begin(c)] == [Begin(c)] && "" + [c] == [c];
  }

  lemma {:induction false} LineWith(init: seq<Token>, token: Token)
    requires LineOk(init) && TokenOk(token) && (init != [] ==> Follows(init[|init| - 1], token))
    ensures LineOk(init + [token])
  {
    var tokens := init + [token];
    forall k | 0 < k < |tokens|
      ensures Follows(tokens[k - 1], tokens[k])
    {
      assert tokens[k - 1] == init[k - 1];
    }
  }

  lemma {:induction false} InitOfLine(tokens: seq<Token>)
    requires LineOk(tokens) && tokens != []
    ensures var init := tokens[..|tokens| - 1];
            LineOk(init) && (init != [] ==> Follows(init[|init| - 1], tokens[|tokens| - 1]))
  {
    assert |tokens| > 1 ==> Follows(tokens[|tokens| - 2], tokens[|tokens| - 1]);
  }

  lemma {:induction false} GrowIsLine(tokens: seq<Token>, c: char)
    requires LineOk(tokens)
    ensures LineOk(Grow(tokens, c))
  {
    if tokens != [] && GoesOn(tokens[|tokens| - 1], c) {
      var init, last := tokens[..|tokens| - 1], tokens[|tokens| - 1];
      GrowTokenText(last, c);
      InitOfLine(tokens);
      LineWith(init, GrowToken(last, c));
    } else {
      BeginTokenText(c);
      LineWith(tokens, BeginToken(c));
    }
  }

  lemma {:induction false} GrowText(tokens: seq<Token>, c: char)
    requires tokens != [] ==> TokenOk(tokens[|tokens| - 1])
    ensures LineText(Grow(tokens, c)) == LineText(tokens) + [c]
  {
    if tokens != [] && GoesOn(tokens[|tokens| - 1], c) {
      var init, last := tokens[..|tokens| - 1], tokens[|tokens| - 1];
      GrowTokenText(last, c);
      LineSnoc(init, GrowToken(last, c));
      Associates(LineText(init), TokenText(last), [c]);
    } else {
      BeginTokenText(c);
      LineSnoc(tokens, BeginToken(c));
    }
  }

  lemma {:induction false} GrowFacts(tokens: seq<Token>, before: string, c: char, input: string)
    requires LineOk(tokens) && LineText(tokens) == before && input == before + [c]
    ensures LineOk(Grow(tokens, c)) && LineText(Grow(tokens, c)) == input
  {
    GrowIsLine(tokens, c);
    GrowText(tokens, c);
  }

  /** The line an input is, character after character. */
  lemma {:induction false} Parse(input: string) returns (tokens: seq<Token>)
    ensures LineOk(tokens) && LineText(tokens) == input
    decreases |input|
  {
    if input == "" {
      tokens := [];
    } else {
      var before, c := input[..|input| - 1], input[|input| - 1];
      var parsed := Parse(before);
      tokens := Grow(parsed, c);
      GrowFacts(parsed, before, c, input);
    }
  }

  /** Every input is a line of pieces, and splits into what they mean. */
  lemma {:induction false} EveryInputIsALine(input: string)
    ensures exists tokens: seq<Token> ::
              LineOk(tokens) && LineText(tokens) == input && Split(input) == Meaning(tokens)
  {
    var tokens := Parse(input);
    SplitIsMeaning(tokens);
  }
}
