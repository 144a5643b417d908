/** Splitting an action string into words, and words into flags (src/config/keybind_parse.cpp). */
module ActionWords {
  import opened Lists
  import opened Options

  const ACTION_SPACE: string := " \t\n\r"

  predicate IsActionSpace(c: char) {
    c in ACTION_SPACE
  }

  // ---------------------------------------------------------------- the grammar, one character at a time

  datatype Mode =
    | Plain
    | Escape        // after a backslash outside quotes
    | Single        // inside '...'
    | Double        // inside "..."
    | DoubleEscape  // after a backslash inside "..."

  /** Where a reader is after some prefix: the finished words, and the word it is in, if any. */
  datatype Lexer = Lexer(mode: Mode, words: seq<string>, word: string, inWord: bool)

  const START: Lexer := Lexer(Plain, [], "", false)

  function NextMode(mode: Mode, c: char): Mode {
    match mode
    case Plain => if c == '\\' then Escape else if c == '\'' then Single else if c == '\"' then Double else Plain
    case Escape => Plain
    case Single => if c == '\'' then Plain else Single
    case Double => if c == '\"' then Plain else if c == '\\' then DoubleEscape else Double
    case DoubleEscape => Double
  }

  function Feed(lexer: Lexer, c: char): Lexer {
    var next := lexer.(mode := NextMode(lexer.mode, c));
    match lexer.mode
    case Plain =>
      if IsActionSpace(c) then
        if lexer.inWord then Lexer(Plain, lexer.words + [lexer.word], "", false) else lexer
      else if next.mode == Plain then next.(word := lexer.word + [c], inWord := true)
      else next.(inWord := true)
    case Escape => next.(word := lexer.word + [c])
    case Single => if c == '\'' then next else next.(word := lexer.word + [c])
    case Double => if c == '\"' || c == '\\' then next else next.(word := lexer.word + [c])
    case DoubleEscape =>
      if c == '\"' || c == '\\' then next.(word := lexer.word + [c]) else next.(word := lexer.word + ['\\', c])
  }

  function FeedAll(lexer: Lexer, text: string): Lexer
    decreases |text|
  {
    if text == [] then lexer else FeedAll(Feed(lexer, text[0]), text[1..])
  }

  function Finish(lexer: Lexer): Option<seq<string>> {
    if lexer.mode != Plain then None
    else if lexer.inWord then Some(lexer.words + [lexer.word])
    else Some(lexer.words)
  }

  /** The words of an action string. */
  function Split(text: string): Option<seq<string>> {
    Finish(FeedAll(START, text))
  }

  lemma {:induction false} FeedAppend(lexer: Lexer, a: string, b: string)
    ensures FeedAll(lexer, a + b) == FeedAll(FeedAll(lexer, a), b)
    decreases |a|
  {
    if a == [] {
      assert a + b == b;
    } else {
      FeedAppend(Feed(lexer, a[0]), a[1..], b);
      assert (a + b)[1..] == a[1..] + b;
    }
  }

  lemma FeedNext(text: string, index: nat)
    requires index < |text|
    ensures FeedAll(START, text[..index + 1]) == Feed(FeedAll(START, text[..index]), text[index])
  {
    FeedAppend(START, text[..index], [text[index]]);
    assert text[..index + 1] == text[..index] + [text[index]];
    assert FeedAll(FeedAll(START, text[..index]), [text[index]])
        == FeedAll(Feed(FeedAll(START, text[..index]), text[index]), []);
  }

  lemma {:induction false} FeedLiteral(lexer: Lexer, text: string)
    requires lexer.mode == Single && '\'' !in text
    ensures FeedAll(lexer, text) == lexer.(word := lexer.word + text)
    decreases |text|
  {
    if text == [] {
      assert lexer.word + text == lexer.word;
    } else {
      FeedLiteral(Feed(lexer, text[0]), text[1..]);
      assert lexer.word + text == (lexer.word + [text[0]]) + text[1..];
    }
  }

  // ---------------------------------------------------------------- the scanner

  /** The position of the next `c` from `start` on, or the length. */
  method Find(text: string, c: char, start: nat) returns (position: nat)
    requires start <= |text|
    ensures start <= position <= |text|
    ensures c !in text[start..position]
    ensures position < |text| ==> text[position] == c
  {
    position := start;
    while position < |text| && text[position] != c
      invariant start <= position <= |text|
      invariant c !in text[start..position]
    {
      position := position + 1;
    }
  }

  method SplitActionString(text: string) returns (result: Option<seq<string>>)
    ensures result == Split(text)
  {
    var words: seq<string> := [];
    var word: string := "";
    var inWord := false;
    var index := 0;
    while index < |text|
      invariant 0 <= index <= |text|
      invariant FeedAll(START, text[..index]) == Lexer(Plain, words, word, inWord)
      invariant !inWord ==> word == ""
    {
      var c := text[index];
      FeedNext(text, index);
      if IsActionSpace(c) {
        if inWord {
          words, word, inWord := words + [word], "", false;
        }
        index := index + 1;
        continue;
      }
      inWord := true;
      if c == '\'' {
        var close := Find(text, '\'', index + 1);
        var literal := text[index + 1..close];
        FeedLiteral(Lexer(Single, words, word, true), literal);
        FeedAppend(START, text[..index + 1], literal);
        assert text[..close] == text[..index + 1] + literal;
        if close == |text| {
          assert text[..close] == text;
          return None;
        }
        FeedNext(text, close);
        word := word + literal;
        index := close;
      } else if c == '\"' {
        var closed;
        closed, index, word := SplitDouble(text, index + 1, words, word);
        if !closed {
          return None;
        }
      } else if c == '\\' {
        if index + 1 >= |text| {
          assert text[..index + 1] == text;
          return None;
        }
        index := index + 1;
        FeedNext(text, index);
        word := word + [text[index]];
      } else {
        word := word + [c];
      }
      index := index + 1;
    }
    assert text[..index] == text;
    if inWord {
      words := words + [word];
    }
    return Some(words);
  }

  /** The part between double quotes, from just after the opening one. */
  method SplitDouble(text: string, start: nat, words: seq<string>, prefix: string)
    returns (closed: bool, index: nat, word: string)
    requires start <= |text|
    requires FeedAll(START, text[..start]) == Lexer(Double, words, prefix, true)
    ensures start <= index <= |text|
    ensures closed ==> index < |text| && FeedAll(START, text[..index + 1]) == Lexer(Plain, words, word, true)
    ensures !closed ==> Split(text) == None
  {
    index, word, closed := start, prefix, false;
    while index < |text|
      invariant start <= index <= |text|
      invariant
        || FeedAll(START, text[..index]) == Lexer(Double, words, word, true)
        || (&& FeedAll(START, text[..index]).mode == DoubleEscape
            && FeedAll(START, text[..index]).(mode := Double, word := word) == Lexer(Double, words, word, true)
            && word == FeedAll(START, text[..index]).word + ['\\']
            && (index < |text| ==> text[index] != '\"' && text[index] != '\\'))
    {
      FeedNext(text, index);
      if text[index] == '\"' {
        closed := true;
        break;
      }
      if text[index] == '\\' && index + 1 < |text| && (text[index + 1] == '\"' || text[index + 1] == '\\') {
        index := index + 1;
        FeedNext(text, index);
      }
      word := word + [text[index]];
      index := index + 1;
    }
    if !closed {
      assert text[..index] == text;
    }
  }

  // ---------------------------------------------------------------- when it fails

  function ModeAfter(mode: Mode, text: string): Mode
    decreases |text|
  {
    if text == [] then mode else ModeAfter(NextMode(mode, text[0]), text[1..])
  }

  lemma {:induction false} ModeIsTracked(lexer: Lexer, text: string)
    ensures FeedAll(lexer, text).mode == ModeAfter(lexer.mode, text)
    decreases |text|
  {
    if text == [] {
    } else {
      ModeIsTracked(Feed(lexer, text[0]), text[1..]);
    }
  }

  /** Splitting fails exactly when the text stops inside quotes or right after a backslash. */
  lemma FailsExactly(text: string)
    ensures Split(text).None? <==> ModeAfter(Plain, text) != Plain
  {
    ModeIsTracked(START, text);
  }

  // ---------------------------------------------------------------- quoting

  datatype Style = Bare | Backslashed | SingleQuoted | DoubleQuoted | LooselyQuoted

  /** A stretch of a word written in one style; pieces that touch join into one word. */
  datatype Piece = Piece(text: string, style: Style)

  predicate IsBlank(c: char) {
    c == ' ' || c == '\t' || c == '\n' || c == '\r'
  }

  lemma BlanksAreSpaces(c: char)
    ensures IsActionSpace(c) <==> IsBlank(c)
  {
    assert ACTION_SPACE == [' ', '\t', '\n', '\r'];
  }

  predicate IsSpecial(c: char) {
    IsBlank(c) || c == '\'' || c == '\"' || c == '\\'
  }

  predicate CanWrite(piece: Piece) {
    match piece.style
    case Bare => piece.text != "" && forall c | c in piece.text :: !IsSpecial(c)
    case Backslashed => piece.text != ""
    case SingleQuoted => '\'' !in piece.text
    case DoubleQuoted => true
    case LooselyQuoted => true
  }

  function Escaped(text: string): string {
    if text == [] then [] else ['\\', text[0]] + Escaped(text[1..])
  }

  function InsideDouble(text: string): string {
    if text == [] then []
    else (if text[0] == '\"' || text[0] == '\\' then ['\\', text[0]] else [text[0]]) + InsideDouble(text[1..])
  }

  /** Inside double quotes a backslash stands for itself before an ordinary character. */
  function InsideLoosely(text: string): string {
    if text == [] then []
    else if text[0] == '\"' then ['\\', '\"'] + InsideLoosely(text[1..])
    else if text[0] == '\\' && (|text| == 1 || text[1] == '\"' || text[1] == '\\') then
      ['\\', '\\'] + InsideLoosely(text[1..])
    else [text[0]] + InsideLoosely(text[1..])
  }

  function Written(piece: Piece): string {
    match piece.style
    case Bare => piece.text
    case Backslashed => Escaped(piece.text)
    case SingleQuoted => ['\''] + piece.text + ['\'']
    case DoubleQuoted => ['\"'] + InsideDouble(piece.text) + ['\"']
    case LooselyQuoted => ['\"'] + InsideLoosely(piece.text) + ['\"']
  }

  function Text(pieces: seq<Piece>): string {
    if pieces == [] then "" else pieces[0].text + Text(pieces[1..])
  }

  function WrittenAll(pieces: seq<Piece>): string {
    if pieces == [] then "" else Written(pieces[0]) + WrittenAll(pieces[1..])
  }

  predicate IsGap(gap: string) {
    forall c | c in gap :: IsBlank(c)
  }

  predicate CanWriteWord(pieces: seq<Piece>) {
    pieces != [] && forall piece | piece in pieces :: CanWrite(piece)
  }

  /** The words in order, each after its own gap, and one gap at the end. */
  function Joined(words: seq<seq<Piece>>, gaps: seq<string>): string
    requires |gaps| == |words| + 1
  {
    if words == [] then gaps[0] else gaps[0] + WrittenAll(words[0]) + Joined(words[1..], gaps[1..])
  }

  function Texts(words: seq<seq<Piece>>): seq<string> {
    seq(|words|, i requires 0 <= i < |words| => Text(words[i]))
  }

  lemma {:induction false} FeedBare(lexer: Lexer, text: string)
    requires lexer.mode == Plain && forall c | c in text :: !IsSpecial(c)
    ensures FeedAll(lexer, text) == lexer.(word := lexer.word + text, inWord := lexer.inWord || text != [])
    decreases |text|
  {
    if text == [] {
      assert lexer.word + text == lexer.word;
    } else {
      assert text[0] in text;
      FeedBare(Feed(lexer, text[0]), text[1..]);
      assert lexer.word + text == (lexer.word + [text[0]]) + text[1..];
    }
  }

  /** Two characters in a row. */
  lemma FeedTwo(lexer: Lexer, a: char, b: char, rest: string)
    ensures FeedAll(lexer, [a, b] + rest) == FeedAll(Feed(Feed(lexer, a), b), rest)
  {
    assert ([a, b] + rest)[1..] == [b] + rest;
    assert ([b] + rest)[1..] == rest;
    assert FeedAll(lexer, [a, b] + rest) == FeedAll(Feed(lexer, a), [b] + rest);
  }

  lemma {:induction false} FeedEscaped(lexer: Lexer, text: string)
    requires lexer.mode == Plain
    ensures FeedAll(lexer, Escaped(text)) == lexer.(word := lexer.word + text, inWord := lexer.inWord || text != [])
    decreases |text|
  {
    if text == [] {
      assert lexer.word + text == lexer.word;
    } else {
      FeedTwo(lexer, '\\', text[0], Escaped(text[1..]));
      FeedEscaped(Feed(Feed(lexer, '\\'), text[0]), text[1..]);
      assert lexer.word + text == (lexer.word + [text[0]]) + text[1..];
    }
  }

  lemma {:induction false} FeedDouble(lexer: Lexer, text: string)
    requires lexer.mode == Double
    ensures FeedAll(lexer, InsideDouble(text)) == lexer.(word := lexer.word + text)
    decreases |text|
  {
    if text == [] {
      assert lexer.word + text == lexer.word;
    } else {
      var rest := InsideDouble(text[1..]);
      if text[0] == '\"' || text[0] == '\\' {
        FeedTwo(lexer, '\\', text[0], rest);
        FeedDouble(Feed(Feed(lexer, '\\'), text[0]), text[1..]);
      } else {
        assert ([text[0]] + rest)[1..] == rest;
        FeedDouble(Feed(lexer, text[0]), text[1..]);
      }
      assert lexer.word + text == (lexer.word + [text[0]]) + text[1..];
    }
  }

  lemma LoneBackslash(text: string)
    requires |text| > 1 && text[0] == '\\' && text[1] != '\"' && text[1] != '\\'
    ensures text == ['\\', text[1]] + text[2..]
    ensures InsideLoosely(text) == ['\\', text[1]] + InsideLoosely(text[2..])
  {
    hide InsideLoosely;
    var tail := text[1..];
    AsItIs(text);
    AsItIs(tail);
    assert tail[1..] == text[2..];
    Regroup(['\\'], [text[1]], InsideLoosely(text[2..]));
    Regroup(['\\'], [text[1]], text[2..]);
  }

  /** A character that is written as it is. */
  lemma AsItIs(text: string)
    requires text != [] && text[0] != '\"'
    requires text[0] == '\\' ==> |text| > 1 && text[1] != '\"' && text[1] != '\\'
    ensures text == [text[0]] + text[1..]
    ensures InsideLoosely(text) == [text[0]] + InsideLoosely(text[1..])
  {
  }

  lemma {:induction false} FeedLoosely(lexer: Lexer, text: string)
    requires lexer.mode == Double
    ensures FeedAll(lexer, InsideLoosely(text)) == lexer.(word := lexer.word + text)
    decreases |text|
  {
    if text == [] {
      assert lexer.word + text == lexer.word;
    } else {
      var rest := InsideLoosely(text[1..]);
      if text[0] == '\"' || (text[0] == '\\' && (|text| == 1 || text[1] == '\"' || text[1] == '\\')) {
        FeedTwo(lexer, '\\', text[0], rest);
        FeedLoosely(Feed(Feed(lexer, '\\'), text[0]), text[1..]);
        Regroup(lexer.word, [text[0]], text[1..]);
        assert [text[0]] + text[1..] == text;
      } else if text[0] == '\\' {
        LoneBackslash(text);
        FeedTwo(lexer, '\\', text[1], InsideLoosely(text[2..]));
        FeedLoosely(lexer.(word := lexer.word + ['\\', text[1]]), text[2..]);
        Regroup(lexer.word, ['\\', text[1]], text[2..]);
      } else {
        assert ([text[0]] + rest)[1..] == rest;
        FeedLoosely(Feed(lexer, text[0]), text[1..]);
        Regroup(lexer.word, [text[0]], text[1..]);
        assert [text[0]] + text[1..] == text;
      }
    }
  }

  /** `inside` between two `quote` characters. */
  lemma FeedQuoted(lexer: Lexer, quote: char, inside: string)
    ensures FeedAll(lexer, [quote] + inside + [quote]) == Feed(FeedAll(Feed(lexer, quote), inside), quote)
  {
    var within := Feed(lexer, quote);
    assert ([quote] + inside + [quote])[1..] == inside + [quote];
    FeedAppend(within, inside, [quote]);
    assert FeedAll(FeedAll(within, inside), [quote]) == FeedAll(Feed(FeedAll(within, inside), quote), []);
  }

  lemma FeedPiece(lexer: Lexer, piece: Piece)
    requires lexer.mode == Plain && CanWrite(piece)
    ensures FeedAll(lexer, Written(piece)) == lexer.(word := lexer.word + piece.text, inWord := true)
  {
    match piece.style
    case Bare => FeedBare(lexer, piece.text);
    case Backslashed => FeedEscaped(lexer, piece.text);
    case SingleQuoted =>
      FeedQuoted(lexer, '\'', piece.text);
      FeedLiteral(Feed(lexer, '\''), piece.text);
    case DoubleQuoted =>
      FeedQuoted(lexer, '\"', InsideDouble(piece.text));
      FeedDouble(Feed(lexer, '\"'), piece.text);
    case LooselyQuoted =>
      FeedQuoted(lexer, '\"', InsideLoosely(piece.text));
      FeedLoosely(Feed(lexer, '\"'), piece.text);
  }

  lemma {:induction false} FeedWord(lexer: Lexer, pieces: seq<Piece>)
    requires lexer.mode == Plain && forall piece | piece in pieces :: CanWrite(piece)
    ensures FeedAll(lexer, WrittenAll(pieces))
         == lexer.(word := lexer.word + Text(pieces), inWord := lexer.inWord || pieces != [])
    decreases |pieces|
  {
    assert FeedAll(lexer, "") == lexer;
    hide Written, FeedAll, CanWrite;
    if pieces == [] {
      assert lexer.word + "" == lexer.word;
    } else {
      FeedPiece(lexer, pieces[0]);
      FeedAppend(lexer, Written(pieces[0]), WrittenAll(pieces[1..]));
      FeedWord(lexer.(word := lexer.word + pieces[0].text, inWord := true), pieces[1..]);
      Regroup(lexer.word, pieces[0].text, Text(pieces[1..]));
    }
  }

  lemma {:induction false} FeedGap(lexer: Lexer, gap: string)
    requires lexer.mode == Plain && IsGap(gap) && (!lexer.inWord ==> lexer.word == "")
    ensures FeedAll(lexer, gap) ==
      if lexer.inWord && gap != [] then Lexer(Plain, lexer.words + [lexer.word], "", false) else lexer
    decreases |gap|
  {
    if gap == [] {
    } else {
      BlanksAreSpaces(gap[0]);
      FeedGap(Feed(lexer, gap[0]), gap[1..]);
    }
  }

  /** However each word is quoted and however much space lies between them, splitting gives the words back. */
  lemma RoundTrip(words: seq<seq<Piece>>, gaps: seq<string>)
    requires |gaps| == |words| + 1
    requires forall word | word in words :: CanWriteWord(word)
    requires forall gap | gap in gaps :: IsGap(gap)
    requires forall i | 0 < i < |words| :: gaps[i] != ""
    ensures Split(Joined(words, gaps)) == Some(Texts(words))
  {
    JoinedSplits(START, words, gaps);
    assert [] + Texts(words) == Texts(words);
  }

  lemma {:induction false} JoinedSplits(lexer: Lexer, words: seq<seq<Piece>>, gaps: seq<string>)
    requires |gaps| == |words| + 1
    requires forall word | word in words :: CanWriteWord(word)
    requires forall gap | gap in gaps :: IsGap(gap)
    requires forall i | 0 < i < |words| :: gaps[i] != ""
    requires lexer.mode == Plain && (lexer.inWord ==> words == [] || gaps[0] != "")
    requires !lexer.inWord ==> lexer.word == ""
    ensures Finish(FeedAll(lexer, Joined(words, gaps)))
         == Some(lexer.words + (if lexer.inWord then [lexer.word] else []) + Texts(words))
    decreases |words|
  {
    var finished := lexer.words + (if lexer.inWord then [lexer.word] else []);
    if words == [] {
      FeedGap(lexer, gaps[0]);
      assert finished + Texts(words) == finished;
      assert lexer.words + [] == lexer.words;
    } else {
      assert words[0] in words && gaps[0] in gaps;
      FeedGapAndWord(lexer, gaps[0], words[0]);
      FeedAppend(lexer, gaps[0] + WrittenAll(words[0]), Joined(words[1..], gaps[1..]));
      JoinedSplits(Lexer(Plain, finished, Text(words[0]), true), words[1..], gaps[1..]);
      hide FeedAll, Finish, WrittenAll, Text;
      assert finished + [Text(words[0])] + Texts(words[1..]) == finished + Texts(words);
    }
  }

  lemma FeedGapAndWord(lexer: Lexer, gap: string, pieces: seq<Piece>)
    requires lexer.mode == Plain && IsGap(gap) && (lexer.inWord ==> gap != "") && (!lexer.inWord ==> lexer.word == "")
    requires CanWriteWord(pieces)
    ensures FeedAll(lexer, gap + WrittenAll(pieces))
         == Lexer(Plain, lexer.words + (if lexer.inWord then [lexer.word] else []), Text(pieces), true)
  {
    FeedGap(lexer, gap);
    FeedAppend(lexer, gap, WrittenAll(pieces));
    FeedWord(FeedAll(lexer, gap), pieces);
    assert "" + Text(pieces) == Text(pieces);
    assert lexer.words + [] == lexer.words;
  }

  // ---------------------------------------------------------------- flags

  datatype Flag = OutputFlag | WindowFlag | NameFlag

  /** What the words after an action's name say: those that stand alone, and at most one value per flag. */
  datatype Arguments = Arguments(positional: seq<string>, flags: map<Flag, string>)

  predicate LooksLikeFlag(word: string) {
    |word| >= 2 && word[..2] == "--"
  }

  function FlagName(flag: Flag): string {
    match flag
    case OutputFlag => "--output"
    case WindowFlag => "--window"
    case NameFlag => "--name"
  }

  method SplitActionWords(words: seq<string>, allowed: set<Flag>) returns (result: Option<Arguments>)
    ensures result == Sorted(words, allowed, Arguments([], map[]))
  {
    var sofar := Arguments([], map[]);
    var index := 0;
    while index < |words|
      invariant 0 <= index <= |words|
      invariant Sorted(words, allowed, Arguments([], map[])) == Sorted(words[index..], allowed, sofar)
    {
      var word := words[index];
      var left := words[index..];
      assert left[1..] == words[index + 1..];
      if word == "" {
        return None;
      }
      if !LooksLikeFlag(word) {
        sofar := sofar.(positional := sofar.positional + [word]);
        index := index + 1;
        continue;
      }
      var slot: Option<Flag> := None;
      if word == "--output" && OutputFlag in allowed {
        slot := Some(OutputFlag);
      } else if word == "--window" && WindowFlag in allowed {
        slot := Some(WindowFlag);
      } else if word == "--name" && NameFlag in allowed {
        slot := Some(NameFlag);
      }
      if slot == None || slot.value in sofar.flags || index + 1 >= |words| || words[index + 1] == "" {
        return None;
      }
      assert left[2..] == words[index + 2..];
      sofar := sofar.(flags := sofar.flags[slot.value := words[index + 1]]);
      index := index + 2;
    }
    return Some(sofar);
  }

  function FlagNamed(word: string): Option<Flag> {
    if word == FlagName(OutputFlag) then Some(OutputFlag)
    else if word == FlagName(WindowFlag) then Some(WindowFlag)
    else if word == FlagName(NameFlag) then Some(NameFlag)
    else None
  }

  function Sorted(words: seq<string>, allowed: set<Flag>, sofar: Arguments): Option<Arguments>
    decreases |words|
  {
    if words == [] then Some(sofar)
    else if words[0] == "" then None
    else if !LooksLikeFlag(words[0]) then
      Sorted(words[1..], allowed, sofar.(positional := sofar.positional + [words[0]]))
    else
      match FlagNamed(words[0])
      case None => None
      case Some(flag) =>
        if flag !in allowed || flag in sofar.flags || |words| < 2 || words[1] == "" then None
        else Sorted(words[2..], allowed, sofar.(flags := sofar.flags[flag := words[1]]))
  }

  /** One argument as it is typed. */
  datatype Argument = Positional(word: string) | Valued(flag: Flag, value: string)

  function Typed(arguments: seq<Argument>): seq<string> {
    if arguments == [] then []
    else
      (match arguments[0]
       case Positional(word) => [word]
       case Valued(flag, value) =>
         [if flag.OutputFlag? then "--output" else if flag.WindowFlag? then "--window" else "--name", value])
      + Typed(arguments[1..])
  }

  /** Positional words that do not look like flags, and flags that are allowed, not repeated and have a value. */
  ghost predicate Acceptable(arguments: seq<Argument>, allowed: set<Flag>) {
    forall i | 0 <= i < |arguments| ::
      match arguments[i]
      case Positional(word) => word != "" && (|word| == 1 || word[0] != '-' || word[1] != '-')
      case Valued(flag, value) =>
        value != "" && flag in allowed && forall j | 0 <= j < i :: arguments[j].Valued? ==> arguments[j].flag != flag
  }

  function Collected(arguments: seq<Argument>, sofar: Arguments): Arguments {
    if arguments == [] then sofar
    else
      Collected(arguments[1..],
        match arguments[0]
        case Positional(word) => sofar.(positional := sofar.positional + [word])
        case Valued(flag, value) => sofar.(flags := sofar.flags[flag := value]))
  }

  ghost predicate Fresh(arguments: seq<Argument>, sofar: Arguments) {
    forall i | 0 <= i < |arguments| :: arguments[i].Valued? ==> arguments[i].flag !in sofar.flags
  }

  lemma FlagNamesAreFlags(flag: Flag)
    ensures FlagName(flag) != "" && LooksLikeFlag(FlagName(flag)) && FlagNamed(FlagName(flag)) == Some(flag)
  {
    assert "--output"[..2] == "--" && "--window"[..2] == "--" && "--name"[..2] == "--";
  }

  lemma FlagsByTwoDashes(word: string)
    ensures LooksLikeFlag(word) <==> |word| >= 2 && word[0] == '-' && word[1] == '-'
  {
    if |word| >= 2 {
      assert word[..2] == [word[0], word[1]];
    }
  }

  lemma {:induction false} SortsTyped(arguments: seq<Argument>, allowed: set<Flag>, sofar: Arguments)
    requires Acceptable(arguments, allowed) && Fresh(arguments, sofar)
    ensures Sorted(Typed(arguments), allowed, sofar) == Some(Collected(arguments, sofar))
    decreases |arguments|
  {
    if arguments == [] {
    } else {
      var rest := arguments[1..];
      match arguments[0]
      case Positional(word) =>
        FlagsByTwoDashes(word);
        assert ([word] + Typed(rest))[1..] == Typed(rest);
        SortsTyped(rest, allowed, sofar.(positional := sofar.positional + [word]));
      case Valued(flag, value) =>
        FlagNamesAreFlags(flag);
        assert ([FlagName(flag), value] + Typed(rest))[2..] == Typed(rest);
        SortsTyped(rest, allowed, sofar.(flags := sofar.flags[flag := value]));
    }
  }

  /** Words that sort were typed from acceptable arguments. */
  lemma {:induction false} SortedWereTyped(words: seq<string>, allowed: set<Flag>, sofar: Arguments)
    returns (arguments: seq<Argument>)
    requires Sorted(words, allowed, sofar).Some?
    ensures Acceptable(arguments, allowed) && Fresh(arguments, sofar)
    ensures Typed(arguments) == words
    decreases |words|
  {
    if words == [] {
      arguments := [];
    } else if !LooksLikeFlag(words[0]) {
      FlagsByTwoDashes(words[0]);
      var rest := SortedWereTyped(words[1..], allowed, sofar.(positional := sofar.positional + [words[0]]));
      arguments := [Positional(words[0])] + rest;
      assert words == [words[0]] + words[1..];
    } else {
      var flag := FlagNamed(words[0]).value;
      var rest := SortedWereTyped(words[2..], allowed, sofar.(flags := sofar.flags[flag := words[1]]));
      arguments := [Valued(flag, words[1])] + rest;
      assert words == [words[0], words[1]] + words[2..];
    }
  }

  function Alone(arguments: seq<Argument>): seq<string> {
    if arguments == [] then []
    else (if arguments[0].Positional? then [arguments[0].word] else []) + Alone(arguments[1..])
  }

  lemma {:induction false} CollectsWords(arguments: seq<Argument>, sofar: Arguments)
    ensures Collected(arguments, sofar).positional == sofar.positional + Alone(arguments)
    decreases |arguments|
  {
    if arguments == [] {
    } else {
      var first, next := arguments[0], With(arguments[0], sofar);
      CollectsWords(arguments[1..], next);
      Regroup(sofar.positional, if first.Positional? then [first.word] else [], Alone(arguments[1..]));
    }
  }

  /** The value a flag is given, wherever it is given. */
  ghost predicate GivenOnce(arguments: seq<Argument>, flag: Flag, before: Arguments, after: Arguments) {
    if flag in before.flags then flag in after.flags && after.flags[flag] == before.flags[flag]
    else
      && (flag in after.flags <==> exists i :: 0 <= i < |arguments| && Gives(arguments[i], flag))
      && (forall i :: 0 <= i < |arguments| && Gives(arguments[i], flag) ==> after.flags[flag] == arguments[i].value)
  }

  lemma {:induction false} CollectsFlags(arguments: seq<Argument>, allowed: set<Flag>, sofar: Arguments, flag: Flag)
    requires Acceptable(arguments, allowed) && Fresh(arguments, sofar)
    ensures GivenOnce(arguments, flag, sofar, Collected(arguments, sofar))
    decreases |arguments|
  {
    if arguments == [] {
    } else {
      OthersAcceptable(arguments, allowed, sofar);
      CollectsFlags(arguments[1..], allowed, With(arguments[0], sofar), flag);
      GivenFirstOrLater(arguments, flag, sofar, Collected(arguments, sofar));
    }
    hide Acceptable, Fresh, GivenOnce;
  }

  lemma GivenFirstOrLater(arguments: seq<Argument>, flag: Flag, before: Arguments, after: Arguments)
    requires arguments != [] && GivenOnce(arguments[1..], flag, With(arguments[0], before), after)
    requires arguments[0].Valued? ==>
      arguments[0].flag !in before.flags
      && forall i :: 0 <= i < |arguments[1..]| ==> !Gives(arguments[1..][i], arguments[0].flag)
    ensures GivenOnce(arguments, flag, before, after)
  {
    FirstOrLater(arguments, flag);
  }

  function With(argument: Argument, sofar: Arguments): Arguments {
    if argument.Positional? then sofar.(positional := sofar.positional + [argument.word])
    else sofar.(flags := sofar.flags[argument.flag := argument.value])
  }

  lemma OthersAcceptable(arguments: seq<Argument>, allowed: set<Flag>, sofar: Arguments)
    requires arguments != [] && Acceptable(arguments, allowed) && Fresh(arguments, sofar)
    ensures Acceptable(arguments[1..], allowed) && Fresh(arguments[1..], With(arguments[0], sofar))
    ensures arguments[0].Valued? ==>
      arguments[0].flag !in sofar.flags
      && forall i :: 0 <= i < |arguments[1..]| ==> !Gives(arguments[1..][i], arguments[0].flag)
  {
  }

  lemma FirstOrLater(arguments: seq<Argument>, flag: Flag)
    requires arguments != []
    ensures (exists i :: 0 <= i < |arguments| && Gives(arguments[i], flag))
       <==> Gives(arguments[0], flag) || exists i :: 0 <= i < |arguments[1..]| && Gives(arguments[1..][i], flag)
    ensures forall i :: 0 < i < |arguments| ==> arguments[i] == arguments[1..][i - 1]
  {
    if i :| 0 <= i < |arguments[1..]| && Gives(arguments[1..][i], flag) {
      assert Gives(arguments[i + 1], flag);
    }
    if i :| 0 <= i < |arguments| && Gives(arguments[i], flag) {
      if i > 0 {
        assert Gives(arguments[1..][i - 1], flag);
      }
    }
  }

  predicate Gives(argument: Argument, flag: Flag) {
    argument.Valued? && argument.flag == flag
  }

  /** What arguments mean: the words that stand alone, in order, and for each flag the value it was given, if any. */
  lemma MeaningExactly(arguments: seq<Argument>, allowed: set<Flag>, flag: Flag)
    requires Acceptable(arguments, allowed)
    ensures var meaning := Collected(arguments, Arguments([], map[]));
      && meaning.positional == Alone(arguments)
      && (flag in meaning.flags <==> exists i :: 0 <= i < |arguments| && Gives(arguments[i], flag))
      && (forall i :: 0 <= i < |arguments| && Gives(arguments[i], flag) ==> meaning.flags[flag] == arguments[i].value)
  {
    CollectsWords(arguments, Arguments([], map[]));
    CollectsFlags(arguments, allowed, Arguments([], map[]), flag);
    assert [] + Alone(arguments) == Alone(arguments);
  }

  /** Words are accepted exactly when some acceptable arguments are typed that way, and then they mean just those. */
  lemma AcceptedExactly(words: seq<string>, allowed: set<Flag>)
    ensures Sorted(words, allowed, Arguments([], map[])).Some?
       <==> exists arguments :: Acceptable(arguments, allowed) && Typed(arguments) == words
    ensures forall arguments | Acceptable(arguments, allowed) && Typed(arguments) == words ::
      Sorted(words, allowed, Arguments([], map[])) == Some(Collected(arguments, Arguments([], map[])))
  {
    var none := Arguments([], map[]);
    if Sorted(words, allowed, none).Some? {
      var arguments := SortedWereTyped(words, allowed, none);
    }
    forall arguments | Acceptable(arguments, allowed) && Typed(arguments) == words
      ensures Sorted(words, allowed, none) == Some(Collected(arguments, none))
    {
      SortsTyped(arguments, allowed, none);
    }
  }
}
