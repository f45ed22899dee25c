/** The client's command line: words are split at whitespace, and the message of a send command is whatever
    follows the first occurrence of the recipient in the line. */
module CommandParser {
  import opened Models

  const SEND := "/send"
  const STATUS := "/status"

  /** Messages are kept as text; their bytes are its UTF-8 encoding. */
  datatype Command = Send(to: string, message: string) | Status

  datatype ParseError = InvalidFormat | UnknownCommand(line: string)

  datatype Parsed = Parsed(command: Command) | Rejected(error: ParseError)

  /** The Unicode White_Space characters. */
  predicate IsSpace(c: char) {
    || '\t' <= c <= '\r' || c == ' ' || c == '\U{0085}' || c == '\U{00A0}' || c == '\U{1680}'
    || '\U{2000}' <= c <= '\U{200A}' || c == '\U{2028}' || c == '\U{2029}' || c == '\U{202F}'
    || c == '\U{205F}' || c == '\U{3000}'
  }

  predicate AllSpace(s: string) {
    forall i :: 0 <= i < |s| ==> IsSpace(s[i])
  }

  predicate NoSpace(s: string) {
    forall i :: 0 <= i < |s| ==> !IsSpace(s[i])
  }

  function TrimStart(s: string): (t: string)
    ensures |t| <= |s|
  {
    if s != [] && IsSpace(s[0]) then TrimStart(s[1..]) else s
  }

  function TrimEnd(s: string): (t: string)
    ensures |t| <= |s|
  {
    if s != [] && IsSpace(s[|s| - 1]) then TrimEnd(s[..|s| - 1]) else s
  }

  function Trim(s: string): string {
    TrimEnd(TrimStart(s))
  }

  /** The longest prefix without whitespace. */
  function FirstWord(s: string): (w: string)
    ensures |w| <= |s|
  {
    if s == [] || IsSpace(s[0]) then [] else [s[0]] + FirstWord(s[1..])
  }

  function LowerChar(c: char): char {
    if 'A' <= c <= 'Z' then (c as int + 32) as char else c
  }

  function Lower(s: string): string {
    seq(|s|, i requires 0 <= i < |s| => LowerChar(s[i]))
  }

  predicate OccursAt(s: string, pattern: string, i: nat) {
    i + |pattern| <= |s| && s[i..i + |pattern|] == pattern
  }

  ghost predicate Contains(s: string, pattern: string) {
    exists i: nat :: OccursAt(s, pattern, i)
  }

  /** The first occurrence at `from` or later. */
  function IndexFrom(s: string, pattern: string, from: nat): (index: Option<nat>)
    ensures index.Some? ==> from <= index.value && OccursAt(s, pattern, index.value)
    ensures forall j: nat :: from <= j && (index.Some? ==> j < index.value) ==> !OccursAt(s, pattern, j)
    decreases |s| - from
  {
    if from > |s| then None
    else if OccursAt(s, pattern, from) then Some(from)
    else IndexFrom(s, pattern, from + 1)
  }

  function SecondWord(line: string): string {
    var start := TrimStart(line);
    FirstWord(TrimStart(start[|FirstWord(start)|..]))
  }

  /** Searching the line for its second word finds something. */
  lemma {:induction false} SecondWordOccurs(line: string)
    ensures Contains(line, SecondWord(line))
  {
    var start := TrimStart(line);
    var rest := start[|FirstWord(start)|..];
    var trimmed := TrimStart(rest);
    TrimStartIsSuffix(line);
    TrimStartIsSuffix(rest);
    FirstWordIsPrefix(trimmed);
    SuffixOfSuffix(line, start, rest);
    SuffixOfSuffix(line, rest, trimmed);
    PrefixOccurs(line, trimmed, FirstWord(trimmed));
  }

  lemma {:induction false} TrimStartIsSuffix(s: string)
    ensures IsSuffix(s, TrimStart(s))
    decreases |s|
  {
    if s != [] && IsSpace(s[0]) {
      TrimStartIsSuffix(s[1..]);
      SuffixOfSuffix(s, s[1..], TrimStart(s));
    }
  }

  lemma {:induction false} FirstWordIsPrefix(s: string)
    ensures FirstWord(s) <= s
    decreases |s|
  {
    if s != [] && !IsSpace(s[0]) {
      FirstWordIsPrefix(s[1..]);
    }
  }

  ghost predicate IsSuffix(s: string, t: string) {
    |t| <= |s| && s[|s| - |t|..] == t
  }

  lemma {:induction false} SuffixOfSuffix(s: string, t: string, u: string)
    requires IsSuffix(s, t) && IsSuffix(t, u)
    ensures IsSuffix(s, u)
  {
    assert s[|s| - |u|..] == t[|t| - |u|..];
  }

  lemma {:induction false} PrefixOccurs(s: string, suffix: string, word: string)
    requires IsSuffix(s, suffix) && word <= suffix
    ensures Contains(s, word)
  {
    var i := |s| - |suffix|;
    assert s[i..i + |word|] == suffix[..|word|];
    assert OccursAt(s, word, i);
  }

  function ParseSend(line: string): Parsed {
    var to := SecondWord(line);
    if to == [] then Rejected(InvalidFormat)
    else
      SecondWordOccurs(line);
      Answer(to, TextAfter(line, to, IndexFrom(line, to, 0).value))
  }

  function TextAfter(line: string, to: string, index: nat): string
    requires index + |to| <= |line|
  {
    Trim(line[index + |to|..])
  }

  function Answer(to: string, message: string): Parsed {
    if message == [] then Rejected(InvalidFormat) else Parsed(Send(to, message))
  }

  function Parse(line: string): Parsed {
    var cmd := Lower(FirstWord(TrimStart(line)));
    if cmd == SEND then ParseSend(line)
    else if cmd == STATUS then Parsed(Status)
    else Rejected(UnknownCommand(line))
  }

  // ----- Trimming and splitting

  lemma {:induction false} TrimStartSkips(blank: string, s: string)
    requires AllSpace(blank)
    ensures TrimStart(blank + s) == TrimStart(s)
    decreases |blank|
  {
    if blank == [] {
      assert blank + s == s;
    } else {
      assert (blank + s)[1..] == blank[1..] + s;
      TrimStartSkips(blank[1..], s);
    }
  }

  lemma {:induction false} TrimStartKeeps(text: string, s: string)
    requires !AllSpace(text)
    ensures TrimStart(text) != [] && TrimStart(text + s) == TrimStart(text) + s
    decreases |text|
  {
    if IsSpace(text[0]) {
      assert (text + s)[1..] == text[1..] + s;
      TrimStartKeeps(text[1..], s);
    }
  }

  lemma {:induction false} TrimEndKeeps(text: string, s: string)
    requires TrimEnd(s) != []
    ensures TrimEnd(text + s) == text + TrimEnd(s)
    decreases |s|
  {
    if IsSpace(s[|s| - 1]) {
      assert (text + s)[..|text + s| - 1] == text + s[..|s| - 1];
      TrimEndKeeps(text, s[..|s| - 1]);
    }
  }

  lemma {:induction false} FirstWordUnique(w: string, rest: string)
    requires NoSpace(w) && (rest != [] ==> IsSpace(rest[0]))
    ensures FirstWord(w + rest) == w
    decreases |w|
  {
    if w == [] {
      assert w + rest == rest;
    } else {
      assert (w + rest)[1..] == w[1..] + rest;
      FirstWordUnique(w[1..], rest);
    }
  }

  lemma {:induction false} TrimEndLonger(s: string)
    requires Trim(s) != []
    ensures TrimEnd(s) != [] && |TrimEnd(s)| >= |Trim(s)|
  {
    var core := TrimStart(s);
    var lead := s[..|s| - |core|];
    TrimStartIsSuffix(s);
    assert s == lead + core;
    TrimEndKeeps(lead, core);
  }

  /** Text in front of a text lengthens its trimmed form. */
  lemma {:induction false} TrimAfterText(text: string, blank: string, s: string)
    requires !AllSpace(text) && Trim(s) != []
    ensures |Trim(text + (blank + s))| > |Trim(s)|
  {
    TrimEndLonger(s);
    TrimEndKeeps(blank, s);
    TrimStartKeeps(text, blank + s);
    TrimEndKeeps(TrimStart(text), blank + s);
  }

  lemma {:induction false} OccursShifted(p: string, s: string, pattern: string, i: nat)
    ensures OccursAt(p + s, pattern, |p| + i) <==> OccursAt(s, pattern, i)
  {
    if i + |pattern| <= |s| {
      assert (p + s)[|p| + i..|p| + i + |pattern|] == s[i..i + |pattern|];
    }
  }

  lemma {:induction false} OccursInPrefix(p: string, s: string, pattern: string, i: nat)
    requires i + |pattern| <= |p|
    ensures OccursAt(p + s, pattern, i) <==> OccursAt(p, pattern, i)
  {
    assert (p + s)[i..i + |pattern|] == p[i..i + |pattern|];
  }

  // ----- The round trip

  /** A send command as a user types it. */
  function Line(pre: string, w: string, gap: string, to: string, gap2: string, message: string): string {
    pre + (w + (gap + (to + (gap2 + message))))
  }

  ghost predicate Typed(pre: string, w: string, gap: string, to: string, gap2: string, message: string) {
    && AllSpace(pre) && AllSpace(gap) && AllSpace(gap2)
    && gap != [] && gap2 != []
    && Lower(w) == SEND
    && to != [] && NoSpace(to)
    && Trim(message) != []
  }

  lemma {:induction false} SendHasNoSpace(w: string)
    requires Lower(w) == SEND
    ensures |w| == 5 && NoSpace(w)
  {
    assert |Lower(w)| == |w|;
    forall i | 0 <= i < |w| ensures !IsSpace(w[i]) {
      assert Lower(w)[i] == SEND[i];
    }
  }

  lemma {:induction false} WordAfterBlank(blank: string, word: string, rest: string)
    requires AllSpace(blank) && word != [] && NoSpace(word)
    requires rest != [] && IsSpace(rest[0])
    ensures TrimStart(blank + (word + rest)) == word + rest && FirstWord(word + rest) == word
  {
    TrimStartSkips(blank, word + rest);
    FirstWordUnique(word, rest);
  }

  lemma {:induction false} WordsOfLine(pre: string, w: string, gap: string, to: string, gap2: string, message: string)
    requires Typed(pre, w, gap, to, gap2, message)
    ensures var line := Line(pre, w, gap, to, gap2, message);
      FirstWord(TrimStart(line)) == w && SecondWord(line) == to
  {
    SendHasNoSpace(w);
    var last := gap2 + message;
    var rest := gap + (to + last);
    WordAfterBlank(pre, w, rest);
    WordAfterBlank(gap, to, last);
    assert (w + rest)[|w|..] == rest;
  }

  lemma {:induction false} NoSpaceInOccurrence(s: string, pattern: string, i: nat)
    requires NoSpace(pattern) && OccursAt(s, pattern, i)
    ensures forall m :: i <= m < i + |pattern| ==> !IsSpace(s[m])
  {
    forall m | i <= m < i + |pattern| ensures !IsSpace(s[m]) {
      assert s[i..i + |pattern|][m - i] == s[m];
    }
  }

  lemma {:induction false} SpacesOfLine(pre: string, w: string, gap: string, to: string, gap2: string, message: string)
    requires Typed(pre, w, gap, to, gap2, message)
    ensures var line, stop := Line(pre, w, gap, to, gap2, message), |pre| + |w|;
      forall m :: 0 <= m < |pre| || stop <= m < stop + |gap| ==> IsSpace(line[m])
  {
  }

  /** Whitespace-free text occurs before the recipient's own place only inside the command word. */
  lemma {:induction false} OccursInCommand(pre: string, w: string, gap: string, to: string, gap2: string,
                                           message: string, j: nat)
    requires Typed(pre, w, gap, to, gap2, message)
    requires j < |pre| + |w| + |gap| && OccursAt(Line(pre, w, gap, to, gap2, message), to, j)
    ensures |pre| <= j && j - |pre| + |to| <= |w| && OccursAt(w, to, j - |pre|)
  {
    var line := Line(pre, w, gap, to, gap2, message);
    NoSpaceInOccurrence(line, to, j);
    SpacesOfLine(pre, w, gap, to, gap2, message);
    assert IsSpace(line[|pre| + |w|]);
    assert !IsSpace(line[j]);
    var rest := gap + (to + (gap2 + message));
    OccursShifted(pre, w + rest, to, j - |pre|);
    OccursInPrefix(w, rest, to, j - |pre|);
  }

  lemma {:induction false} OccursInLine(pre: string, w: string, gap: string, to: string, gap2: string, message: string)
    requires Typed(pre, w, gap, to, gap2, message)
    ensures OccursAt(Line(pre, w, gap, to, gap2, message), to, |pre| + |w| + |gap|)
    ensures Contains(w, to) ==>
      exists j: nat :: j < |pre| + |w| && OccursAt(Line(pre, w, gap, to, gap2, message), to, j)
  {
    var last := gap2 + message;
    var rest := gap + (to + last);
    assert (to + last)[0..0 + |to|] == to;
    OccursShifted(gap, to + last, to, 0);
    OccursShifted(w, rest, to, |gap|);
    OccursShifted(pre, w + rest, to, |w| + |gap|);
    if i: nat :| OccursAt(w, to, i) {
      OccursInPrefix(w, rest, to, i);
      OccursShifted(pre, w + rest, to, i);
      assert |pre| + i < |pre| + |w|;
    }
  }

  lemma {:induction false} AfterRecipient(pre: string, w: string, gap: string, to: string, last: string)
    ensures (pre + (w + (gap + (to + last))))[|pre| + |w| + |gap| + |to|..] == last
  {
    assert (gap + (to + last))[|gap| + |to|..] == last;
    assert (w + (gap + (to + last)))[|w| + |gap| + |to|..] == (gap + (to + last))[|gap| + |to|..];
  }

  lemma {:induction false} AfterInnerOccurrence(pre: string, w: string, gap: string, to: string, last: string, i: nat)
    requires i + |to| <= |w|
    ensures (pre + (w + (gap + (to + last))))[|pre| + i + |to|..] == (w[i + |to|..] + gap + to) + last
  {
    var rest := gap + (to + last);
    assert (pre + (w + rest))[|pre| + (i + |to|)..] == (w + rest)[i + |to|..];
    assert (w + rest)[i + |to|..] == w[i + |to|..] + rest;
    assert w[i + |to|..] + rest == (w[i + |to|..] + gap + to) + last;
  }

  /** The recipient is found at its own place unless it occurs in the command word. */
  lemma {:induction false} FirstOccurrence(pre: string, w: string, gap: string, to: string, gap2: string,
                                           message: string)
    requires Typed(pre, w, gap, to, gap2, message)
    ensures var index := IndexFrom(Line(pre, w, gap, to, gap2, message), to, 0);
      && index.Some?
      && (Contains(w, to) ==> |pre| <= index.value && index.value - |pre| + |to| <= |w|)
      && (!Contains(w, to) ==> index.value == |pre| + |w| + |gap|)
  {
    OccursInLine(pre, w, gap, to, gap2, message);
    var index := IndexFrom(Line(pre, w, gap, to, gap2, message), to, 0);
    if index.value < |pre| + |w| + |gap| {
      OccursInCommand(pre, w, gap, to, gap2, message, index.value);
    }
  }

  lemma {:induction false} MessageAfterInner(pre: string, w: string, gap: string, to: string, gap2: string,
                                             message: string, i: nat)
    requires Typed(pre, w, gap, to, gap2, message) && i + |to| <= |w|
    ensures var line := Line(pre, w, gap, to, gap2, message);
      |pre| + i + |to| <= |line| && TextAfter(line, to, |pre| + i) != Trim(message)
  {
    AfterInnerOccurrence(pre, w, gap, to, gap2 + message, i);
    var text := w[i + |to|..] + gap + to;
    assert text[|text| - |to|] == to[0];
    TrimAfterText(text, gap2, message);
  }

  lemma {:induction false} MessageAfterOwnPlace(pre: string, w: string, gap: string, to: string, gap2: string,
                                                message: string)
    requires Typed(pre, w, gap, to, gap2, message)
    ensures var line := Line(pre, w, gap, to, gap2, message);
      |pre| + |w| + |gap| + |to| <= |line| && TextAfter(line, to, |pre| + |w| + |gap|) == Trim(message)
  {
    AfterRecipient(pre, w, gap, to, gap2 + message);
    TrimStartSkips(gap2, message);
  }

  lemma {:induction false} MessageParsed(pre: string, w: string, gap: string, to: string, gap2: string, message: string)
    requires Typed(pre, w, gap, to, gap2, message)
    ensures var line := Line(pre, w, gap, to, gap2, message);
      var index := IndexFrom(line, to, 0);
      index.Some? && (TextAfter(line, to, index.value) == Trim(message) <==> !Contains(w, to))
  {
    FirstOccurrence(pre, w, gap, to, gap2, message);
    if Contains(w, to) {
      var index := IndexFrom(Line(pre, w, gap, to, gap2, message), to, 0).value;
      MessageAfterInner(pre, w, gap, to, gap2, message, index - |pre|);
    } else {
      MessageAfterOwnPlace(pre, w, gap, to, gap2, message);
    }
  }

  /** Typing a command, a recipient and a message, with any whitespace around them, sends exactly the trimmed
      message to that recipient if and only if the recipient's name does not occur inside the command word. */
  lemma {:induction false} SendRoundTripIff(pre: string, w: string, gap: string, to: string, gap2: string,
                                            message: string)
    requires Typed(pre, w, gap, to, gap2, message)
    ensures Parse(Line(pre, w, gap, to, gap2, message)) == Parsed(Send(to, Trim(message))) <==> !Contains(w, to)
  {
    var line := Line(pre, w, gap, to, gap2, message);
    WordsOfLine(pre, w, gap, to, gap2, message);
    MessageParsed(pre, w, gap, to, gap2, message);
    SendParsed(line, to);
  }

  lemma {:induction false} SendParsed(line: string, to: string)
    requires Lower(FirstWord(TrimStart(line))) == SEND && SecondWord(line) == to && to != []
    ensures IndexFrom(line, to, 0).Some? && Parse(line) == Answer(to, TextAfter(line, to, IndexFrom(line, to, 0).value))
  {
    SecondWordOccurs(line);
    assert Parse(line) == ParseSend(line);
  }

  /** For instance, nobody called "end" gets the message typed for them. */
  lemma {:induction false} RecipientInsideCommand()
    ensures Contains(SEND, "end")
  {
    assert SEND[2..5] == "end";
    assert OccursAt(SEND, "end", 2);
  }

  // ----- Every line, by its words

  /** The line starts with blanks, then its first word, blanks, its second word, and the rest; a word is missing only
      when the line ends before it. */
  ghost predicate Splits(line: string, pre: string, w: string, gap: string, to: string, rest: string) {
    && line == pre + (w + (gap + (to + rest)))
    && AllSpace(pre) && AllSpace(gap) && NoSpace(w) && NoSpace(to)
    && (w == "" ==> gap == "" && to == "")
    && (to != "" ==> gap != "")
    && (to == "" ==> rest == "")
    && (rest != "" ==> IsSpace(rest[0]))
  }

  lemma {:induction false} BlanksFirst(s: string) returns (blank: string)
    ensures AllSpace(blank) && s == blank + TrimStart(s)
    ensures TrimStart(s) != "" ==> !IsSpace(TrimStart(s)[0])
    decreases |s|
  {
    blank := "";
    if s != "" && IsSpace(s[0]) {
      var more := BlanksFirst(s[1..]);
      blank := [s[0]] + more;
      assert s == [s[0]] + s[1..];
    }
  }

  lemma {:induction false} WordFirst(s: string)
    ensures FirstWord(s) <= s && NoSpace(FirstWord(s))
    ensures s[|FirstWord(s)|..] != "" ==> IsSpace(s[|FirstWord(s)|])
    decreases |s|
  {
    if s != "" && !IsSpace(s[0]) {
      WordFirst(s[1..]);
      var w := FirstWord(s[1..]);
      assert FirstWord(s) == [s[0]] + w;
      assert s[1..][|w|..] == s[|w| + 1..];
    }
  }

  /** Every line splits that way. */
  lemma {:induction false} EveryLineSplits(line: string)
    returns (pre: string, w: string, gap: string, to: string, rest: string)
    ensures Splits(line, pre, w, gap, to, rest)
  {
    pre := BlanksFirst(line);
    var start := TrimStart(line);
    var tail: string;
    w, tail := WordThenRest(start);
    gap := BlanksFirst(tail);
    var second := TrimStart(tail);
    to, rest := WordThenRest(second);
    assert line == pre + (w + (gap + (to + rest)));
  }

  /** Unless it starts with a blank, a text starts with a word. */
  lemma {:induction false} WordThenRest(s: string) returns (w: string, rest: string)
    requires s != "" ==> !IsSpace(s[0])
    ensures s == w + rest && NoSpace(w) && (w == "" <==> s == "") && (rest != "" ==> IsSpace(rest[0]))
  {
    WordFirst(s);
    w := FirstWord(s);
    rest := s[|w|..];
  }

  /** And then these are its words. */
  lemma {:induction false} SplitWords(line: string, pre: string, w: string, gap: string, to: string, rest: string)
    requires Splits(line, pre, w, gap, to, rest)
    ensures FirstWord(TrimStart(line)) == w && SecondWord(line) == to
  {
    var last := to + rest;
    var tail := gap + last;
    TrimStartSkips(pre, w + tail);
    assert TrimStart(w + tail) == w + tail;
    FirstWordUnique(w, tail);
    assert (w + tail)[|w|..] == tail;
    TrimStartSkips(gap, last);
    assert TrimStart(last) == last;
    FirstWordUnique(to, rest);
  }

  /** The text after the first occurrence of the recipient. */
  ghost predicate Remains(line: string, to: string, text: string) {
    exists i: nat :: FirstAt(line, to, i) && text == line[i + |to|..]
  }

  ghost predicate FirstAt(line: string, to: string, i: nat) {
    OccursAt(line, to, i) && forall j: nat :: j < i ==> !OccursAt(line, to, j)
  }

  lemma {:induction false} RemainsIsAfterIndex(line: string, to: string, text: string)
    requires IndexFrom(line, to, 0).Some?
    ensures Remains(line, to, text) <==> text == line[IndexFrom(line, to, 0).value + |to|..]
  {
    var index := IndexFrom(line, to, 0).value;
    assert FirstAt(line, to, index);
    if i: nat :| FirstAt(line, to, i) && text == line[i + |to|..] {
      assert i == index;
    }
  }

  /** What a line parses to, by its words: a status when the first is "/status" in any case, an unknown command when it
      is neither that nor "/send", and for "/send" an invalid command when the second word is missing or nothing but
      blanks follows its first occurrence, otherwise that text, trimmed, sent to it. */
  lemma {:induction false} ParseByWords(line: string, pre: string, w: string, gap: string, to: string, rest: string)
    requires Splits(line, pre, w, gap, to, rest)
    ensures Parse(line) == Parsed(Status) <==> Lower(w) == "/status"
    ensures Parse(line) == Rejected(UnknownCommand(line)) <==> Lower(w) != "/send" && Lower(w) != "/status"
    ensures Parse(line) == Rejected(InvalidFormat) <==>
      Lower(w) == "/send" && (to == "" || exists text :: Remains(line, to, text) && AllSpace(text))
    ensures forall recipient, message :: Parse(line) == Parsed(Send(recipient, message)) <==>
      && Lower(w) == "/send"
      && to != ""
      && recipient == to
      && exists text :: Remains(line, to, text) && !AllSpace(text) && message == Trim(text)
  {
    SplitWords(line, pre, w, gap, to, rest);
    if Lower(w) == "/send" && to != "" {
      SendParsed(line, to);
      var text := line[IndexFrom(line, to, 0).value + |to|..];
      forall other ensures Remains(line, to, other) <==> other == text {
        RemainsIsAfterIndex(line, to, other);
      }
      TrimEmptyIff(text);
    }
  }

  lemma {:induction false} TrimEmptyIff(s: string)
    ensures Trim(s) == "" <==> AllSpace(s)
  {
    if AllSpace(s) {
      TrimStartSkips(s, "");
      assert s + "" == s;
    } else {
      TrimStartKeeps(s, "");
      assert s + "" == s;
      var blank := BlanksFirst(s);
      NotBlankKept(TrimStart(s));
    }
  }

  lemma {:induction false} NotBlankKept(s: string)
    requires s != "" && !IsSpace(s[0])
    ensures TrimEnd(s) != "" && TrimEnd(s)[0] == s[0]
    decreases |s|
  {
    if IsSpace(s[|s| - 1]) {
      NotBlankKept(s[..|s| - 1]);
    }
  }

  // ----- What the words are made of

  lemma {:induction false} BlanksLast(s: string) returns (blank: string)
    ensures AllSpace(blank) && s == TrimEnd(s) + blank
    ensures TrimEnd(s) != "" ==> !IsSpace(TrimEnd(s)[|TrimEnd(s)| - 1])
    decreases |s|
  {
    blank := "";
    if s != "" && IsSpace(s[|s| - 1]) {
      var more := BlanksLast(s[..|s| - 1]);
      blank := more + [s[|s| - 1]];
      assert s == s[..|s| - 1] + [s[|s| - 1]];
    }
  }

  /** Trimming takes the blanks at both ends and nothing else. */
  lemma {:induction false} TrimTakesBlanks(s: string) returns (before: string, after: string)
    ensures AllSpace(before) && AllSpace(after) && s == before + Trim(s) + after
    ensures Trim(s) != "" ==> !IsSpace(Trim(s)[0]) && !IsSpace(Trim(s)[|Trim(s)| - 1])
  {
    before := BlanksFirst(s);
    after := BlanksLast(TrimStart(s));
    if TrimStart(s) != "" {
      NotBlankKept(TrimStart(s));
    }
  }

  /** The command words may be typed in any mixture of upper and lower case letters. */
  lemma {:induction false} CommandSpellings(w: string)
    ensures Lower(w) == "/send" <==>
      |w| == 5 && w[0] == '/' && w[1] in "sS" && w[2] in "eE" && w[3] in "nN" && w[4] in "dD"
    ensures Lower(w) == "/status" <==>
      && |w| == 7 && w[0] == '/' && w[1] in "sS" && w[2] in "tT" && w[3] in "aA"
      && w[4] in "tT" && w[5] in "uU" && w[6] in "sS"
  {
    var l := Lower(w);
    assert |l| == |w| && forall i :: 0 <= i < |w| ==> l[i] == LowerChar(w[i]);
    if |w| == 5 {
      assert l == [l[0], l[1], l[2], l[3], l[4]];
    }
    if |w| == 7 {
      assert l == [l[0], l[1], l[2], l[3], l[4], l[5], l[6]];
    }
  }

  /** The characters with the Unicode property White_Space, one by one. */
  lemma {:induction false} SpacesListed(c: char)
    ensures IsSpace(c) <==>
      || c in ['\t', '\n', '\U{000B}', '\U{000C}', '\r', ' ', '\U{0085}', '\U{00A0}', '\U{1680}']
      || c in ['\U{2000}', '\U{2001}', '\U{2002}', '\U{2003}', '\U{2004}', '\U{2005}', '\U{2006}', '\U{2007}']
      || c in ['\U{2008}', '\U{2009}', '\U{200A}', '\U{2028}', '\U{2029}', '\U{202F}', '\U{205F}', '\U{3000}']
  {
  }
}
