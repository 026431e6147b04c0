/** The statement the sweep writes to delete an edge, and which edge it names once it is read. */
module DeleteStatement {
  import opened Basics

  datatype Token = Text(value: string) | To | Semicolon | Other

  /** What the lexer finds where the text begins neither with a blank, a line comment, a string,
      a semicolon nor the keyword in capitals: nothing to report, a token, or an error. */
  datatype Word = Skipped | ToKeyword | OtherToken | Unreadable

  type Lexer = string -> (nat, Word)

  // ----- string literals -----

  function Shift(r: Option<nat>, n: nat): Option<nat> {
    match r case Some(m) => Some(m + n) case None => None
  }

  /** How far behind its opening quote a literal ends. A backslash takes the next character with
      it, which must not end the line. */
  function Closing(s: string): (r: Option<nat>)
    ensures r.Some? ==> r.value < |s|
  {
    if s == "" then None
    else if s[0] == '\'' then Some(0)
    else if s[0] != '\\' then Shift(Closing(s[1..]), 1)
    else if |s| == 1 || s[1] == '\n' then None
    else Shift(Closing(s[2..]), 2)
  }

  /** Replaces a backslash before `c` and the `c`, from left to right, by `c` alone. */
  function Unslash(s: string, c: char): string {
    if |s| < 2 then s
    else if s[0] == '\\' && s[1] == c then [c] + Unslash(s[2..], c)
    else [s[0]] + Unslash(s[1..], c)
  }

  function Unescape(s: string): string {
    Unslash(Unslash(s, '\''), '\\')
  }

  predicate SlashFree(s: string, c: char) {
    |s| < 2 || (!(s[0] == '\\' && s[1] == c) && SlashFree(s[1..], c))
  }

  lemma {:induction false} UnslashLength(s: string, c: char)
    ensures |Unslash(s, c)| <= |s|
    ensures |Unslash(s, c)| == |s| <==> SlashFree(s, c)
    ensures SlashFree(s, c) ==> Unslash(s, c) == s
    ensures s != "" ==> Unslash(s, c) != "" && Unslash(s, c)[|Unslash(s, c)| - 1] == s[|s| - 1]
    decreases |s|
  {
    if |s| >= 2 {
      if s[0] == '\\' && s[1] == c {
        UnslashLength(s[2..], c);
        assert Unslash(s, c) == [c] + Unslash(s[2..], c);
      } else {
        UnslashLength(s[1..], c);
        assert Unslash(s, c) == [s[0]] + Unslash(s[1..], c);
        assert s == [s[0]] + s[1..];
      }
    }
  }

  lemma UnescapeLength(s: string)
    ensures |Unescape(s)| <= |s|
    ensures Unescape(s) == s <==> SlashFree(s, '\'') && SlashFree(s, '\\')
    ensures s != "" ==> Unescape(s) != "" && Unescape(s)[|Unescape(s)| - 1] == s[|s| - 1]
  {
    UnslashLength(s, '\'');
    UnslashLength(Unslash(s, '\''), '\\');
  }

  // ----- ids that survive the quotes -----

  /** No quote, and no backslash but before a character that is neither a backslash nor the end
      of a line. */
  predicate Safe(s: string) {
    forall i :: 0 <= i < |s| ==> SafeAt(s, i)
  }

  predicate SafeAt(s: string, i: nat)
    requires i < |s|
  {
    s[i] != '\'' && (s[i] == '\\' ==> i + 1 < |s| && s[i + 1] != '\\' && s[i + 1] != '\n')
  }

  lemma SafeTail(s: string, n: nat)
    requires Safe(s) && n <= |s|
    ensures Safe(s[n..])
  {
    forall i | 0 <= i < |s| - n ensures SafeAt(s[n..], i) {
      assert SafeAt(s, n + i);
    }
  }

  lemma {:induction false} SafeCloses(s: string, rest: string)
    requires Safe(s)
    ensures Closing(s + "'" + rest) == Some(|s|)
    decreases |s|
  {
    var text := s + "'" + rest;
    if s == "" {
      assert text[0] == '\'';
    } else {
      var n := if s[0] == '\\' then 2 else 1;
      assert SafeAt(s, 0);
      SafeTail(s, n);
      SafeCloses(s[n..], rest);
      assert text[n..] == s[n..] + "'" + rest;
    }
  }

  lemma {:induction false} SafeSlashFree(s: string)
    requires Safe(s)
    ensures SlashFree(s, '\'') && SlashFree(s, '\\')
  {
    if |s| >= 2 {
      assert SafeAt(s, 0) && SafeAt(s, 1);
      SafeTail(s, 1);
      SafeSlashFree(s[1..]);
    }
  }

  lemma SafeUnescaped(s: string)
    requires Safe(s)
    ensures Unescape(s) == s
  {
    SafeSlashFree(s);
    UnescapeLength(s);
  }

  /** A literal that starts with an id ends inside it, right behind it, or not before its
      closing quote was taken by a backslash at the id's end. */
  lemma {:induction false} ClosingCases(s: string, rest: string)
    ensures var r := Closing(s + "'" + rest);
      r.None? || r.value <= |s| || (s != "" && s[|s| - 1] == '\\' && r == Shift(Closing(rest), |s| + 1))
    decreases |s|
  {
    var text := s + "'" + rest;
    if s == "" {
      assert text[0] == '\'';
    } else if s[0] == '\\' && |s| == 1 {
      assert text[1] == '\'' && text[2..] == rest;
    } else {
      var n := if s[0] == '\\' then 2 else 1;
      ClosingCases(s[n..], rest);
      assert text[n..] == s[n..] + "'" + rest;
    }
  }

  /** One that ends right behind the id and has nothing to unescape makes the id safe. */
  lemma {:induction false} ClosedSafe(s: string, rest: string)
    requires Closing(s + "'" + rest) == Some(|s|) && SlashFree(s, '\'') && SlashFree(s, '\\')
    ensures Safe(s)
    decreases |s|
  {
    var text := s + "'" + rest;
    if s != "" {
      assert text[0] == s[0];
      var n := if s[0] == '\\' then 2 else 1;
      assert |s| == 1 ==> text[1] == '\'';
      assert n <= |s|;
      assert text[n..] == s[n..] + "'" + rest;
      assert |s| >= 2 ==> s[1..][1..] == s[2..];
      ClosedSafe(s[n..], rest);
      assert |s| >= 2 ==> text[1] == s[1];
      assert SafeAt(s, 0) && (n == 2 ==> SafeAt(s, 1));
      forall i | 0 <= i < |s| ensures SafeAt(s, i) {
        if i >= n {
          assert SafeAt(s[n..], i - n);
        }
      }
    }
  }

  /** A literal reads as the id it starts with, when the text behind it does not itself end in a
      backslash before the next quote, exactly if the id is safe. */
  lemma ReadsBackIff(s: string, rest: string)
    requires Closing(rest).Some? ==> Closing(rest).value > 0 && rest[Closing(rest).value - 1] != '\\'
    ensures var text, r := s + "'" + rest, Closing(s + "'" + rest);
      && (r.Some? && Unescape(text[..r.value]) == s <==> Safe(s))
      && (Safe(s) ==> r == Some(|s|) && text[..|s|] == s && text[|s| + 1..] == rest)
  {
    var text, r := s + "'" + rest, Closing(s + "'" + rest);
    if Safe(s) {
      SafeCloses(s, rest);
      SafeUnescaped(s);
      assert text[..|s|] == s;
    }
    if r.Some? && Unescape(text[..r.value]) == s {
      var raw := text[..r.value];
      UnescapeLength(raw);
      if r.value <= |s| {
        assert raw == s;
        ClosedSafe(s, rest);
      } else {
        ClosingCases(s, rest);
        Overrun(s, rest);
      }
    }
  }

  /** A literal that takes in the closing quote never reads as the id. */
  lemma Overrun(s: string, rest: string)
    requires s != "" && s[|s| - 1] == '\\' && Closing(s + "'" + rest) == Shift(Closing(rest), |s| + 1) != None
    requires Closing(rest).value > 0 && rest[Closing(rest).value - 1] != '\\'
    ensures Unescape((s + "'" + rest)[..Closing(s + "'" + rest).value]) != s
  {
    var raw := (s + "'" + rest)[..Closing(s + "'" + rest).value];
    UnescapeLength(raw);
    assert raw[|raw| - 1] == rest[Closing(rest).value - 1];
  }

  // ----- the text behind `FROM` -----

  predicate Blank(c: char) {
    c == ' ' || c == '\t' || c == '\r' || c == '\n' || c == 12 as char
  }

  predicate InName(c: char) {
    'a' <= c <= 'z' || 'A' <= c <= 'Z' || '0' <= c <= '9' || c == '_'
  }

  /** The length of a line comment: up to, not including, the end of the line. */
  function CommentLength(text: string): (n: nat)
    ensures n <= |text|
  {
    if text == "" || text[0] == '\n' then 0 else 1 + CommentLength(text[1..])
  }

  function Prepend(t: Token, rest: Option<seq<Token>>): Option<seq<Token>> {
    match rest case Some(ts) => Some([t] + ts) case None => None
  }

  function Tokens(text: string, words: Lexer): Option<seq<Token>>
    decreases |text|
  {
    if text == "" then Some([])
    else if Blank(text[0]) then Tokens(text[1..], words)
    else if |text| >= 2 && text[..2] == "--" then Tokens(text[2 + CommentLength(text[2..])..], words)
    else if text[0] == '\'' then
      match Closing(text[1..])
      case Some(n) => Prepend(Text(Unescape(text[1..n + 1])), Tokens(text[n + 2..], words))
      case None => None
    else if text[0] == ';' then Prepend(Semicolon, Tokens(text[1..], words))
    else if |text| >= 3 && text[..2] == "TO" && !InName(text[2]) then Prepend(To, Tokens(text[2..], words))
    else
      var (n, word) := words(text);
      if n == 0 || n > |text| || word.Unreadable? then None
      else if word.Skipped? then Tokens(text[n..], words)
      else Prepend(if word.ToKeyword? then To else Other, Tokens(text[n..], words))
  }

  /** What must follow the `FROM` of a statement, with nothing after it. */
  function Ids(tokens: Option<seq<Token>>): Option<(Id, Id)> {
    match tokens
    case Some(ts) =>
      if |ts| == 4 && ts[0].Text? && ts[1] == To && ts[2].Text? && ts[3] == Semicolon
      then Some((ts[0].value, ts[2].value)) else None
    case None => None
  }

  function Named(text: string, words: Lexer): Option<(Id, Id)> {
    Ids(Tokens(text, words))
  }

  lemma IdsOf(from: Id, to: Id, rest: Option<seq<Token>>)
    ensures Ids(Prepend(Text(from), Prepend(To, rest))) == Some((from, to)) <==> rest == Some([Text(to), Semicolon])
  {
    match rest {
      case Some(ts) =>
        var all := [Text(from)] + ([To] + ts);
        assert forall i :: 0 <= i < |ts| ==> all[i + 2] == ts[i];
        if Ids(Some(all)) == Some((from, to)) {
          assert all[0 + 2] == ts[0] && all[1 + 2] == ts[1];
          assert ts == [Text(to), Semicolon];
        }
      case None =>
    }
  }

  function Tail(from: Id, to: Id): string {
    "'" + from + "' TO '" + to + "';"
  }

  lemma LiteralTokens(s: string, rest: string, words: Lexer)
    ensures Tokens("'" + (s + "'" + rest), words) ==
      match Closing(s + "'" + rest)
      case Some(n) => Prepend(Text(Unescape((s + "'" + rest)[..n])), Tokens((s + "'" + rest)[n + 1..], words))
      case None => None
  {
    var body := s + "'" + rest;
    var text := "'" + body;
    assert text[1..] == body && text[0] == '\'' && text[..2][0] == '\'';
    match Closing(body) {
      case Some(n) =>
        assert text[1..n + 1] == body[..n] && text[n + 2..] == body[n + 1..];
        assert Tokens(text, words) == Prepend(Text(Unescape(text[1..n + 1])), Tokens(text[n + 2..], words));
      case None =>
    }
  }

  /** Blanks and a comment up to its line end say nothing; a word that goes on after the keyword is
      left to the rest of the lexer. */
  lemma SaysNothing(c: char, rest: string, words: Lexer)
    ensures c in {' ', '\t', '\r', '\n', 12 as char} ==> Tokens([c] + rest, words) == Tokens(rest, words)
    ensures Tokens("--" + ([c] + rest), words) == if c == '\n' then Tokens(rest, words) else Tokens("--" + rest, words)
    ensures ('a' <= c <= 'z' || 'A' <= c <= 'Z' || '0' <= c <= '9' || c == '_') && words("TO" + [c] + rest).1.Unreadable? ==>
      Tokens("TO" + [c] + rest, words) == None
  {
    var text := [c] + rest;
    assert text[1..] == rest;
    var line := "--" + text;
    assert line[..2] == "--" && line[2..] == text && ("--" + rest)[..2] == "--" && ("--" + rest)[2..] == rest;
    if c == '\n' {
      assert line[2..] == text && CommentLength(text) == 0;
      assert Tokens(line, words) == Tokens(text, words);
    } else {
      assert CommentLength(text) == 1 + CommentLength(rest);
      assert line[2 + CommentLength(text)..] == ("--" + rest)[2 + CommentLength(rest)..];
    }
    var word := "TO" + [c] + rest;
    assert word[..2] == "TO" && word[2] == c && word[0] == 'T';
  }

  lemma EndTokens(words: Lexer)
    ensures Tokens(";", words) == Some([Semicolon])
  {
    assert ";"[1..] == "" && Tokens("", words) == Some([]);
    assert [Semicolon] + [] == [Semicolon];
    assert Tokens(";", words) == Prepend(Semicolon, Tokens("", words));
  }

  lemma MiddleTokens(rest: string, words: Lexer)
    ensures Tokens(" TO " + rest, words) == Prepend(To, Tokens(rest, words))
  {
    var a, b, c := " TO " + rest, "TO " + rest, " " + rest;
    assert a[1..] == b && a[0] == ' ';
    assert b[..2] == "TO" && b[2] == ' ' && b[2..] == c;
    assert c[1..] == rest && c[0] == ' ';
    assert Tokens(c, words) == Tokens(rest, words);
    assert Tokens(b, words) == Prepend(To, Tokens(c, words));
  }

  lemma MiddleNoQuote(rest: string)
    ensures Closing(" TO '" + rest) == Some(4)
  {
    var s := " TO ";
    assert " TO '" + rest == s + "'" + rest;
    SafeCloses(s, rest);
  }

  lemma HeadEnds(from: Id, last: string)
    requires last != "" && last[0] == '\''
    ensures "'" + from + "' TO " + last == "'" + (from + "'" + (" TO " + last))
    ensures " TO " + last == " TO '" + last[1..]
  {
    var a, b := "'" + from, "' TO ";
    assert a + b + last == a + (b + last);
    assert a + (b + last) == "'" + (from + (b + last));
    assert b + last == "'" + (" TO " + last);
    assert from + ("'" + (" TO " + last)) == from + "'" + (" TO " + last);
  }

  /** The first id comes back exactly if it is safe, and then what follows is read as written. */
  lemma FirstRead(from: Id, last: string, words: Lexer)
    requires last != "" && last[0] == '\''
    ensures var tokens := Tokens("'" + from + "' TO " + last, words);
      && (Safe(from) ==> tokens == Prepend(Text(from), Prepend(To, Tokens(last, words))))
      && (tokens.Some? && tokens.value != [] && tokens.value[0] == Text(from) ==> Safe(from))
  {
    var rest := " TO " + last;
    HeadEnds(from, last);
    LiteralTokens(from, rest, words);
    MiddleNoQuote(last[1..]);
    MiddleTokens(last, words);
    hide Tokens, Closing, Unescape, Safe;
    ReadsBackIff(from, rest);
  }

  /** So does the second, at the end of the statement. */
  lemma SecondRead(to: Id, words: Lexer)
    ensures Tokens("'" + (to + "'" + ";"), words) == Some([Text(to), Semicolon]) <==> Safe(to)
  {
    LiteralTokens(to, ";", words);
    EndTokens(words);
    NoQuote();
    hide Tokens, Closing, Unescape, Safe;
    ReadsBackIff(to, ";");
    assert [Text(to)] + [Semicolon] == [Text(to), Semicolon];
    var tokens := Tokens("'" + (to + "'" + ";"), words);
    assert tokens.Some? ==> tokens.value != [] && tokens.value[0] == Text(Unescape((to + "'" + ";")[..Closing(to + "'" + ";").value]));
  }

  lemma TailEnds(from: Id, to: Id, head: string, end: string)
    requires to + "';" == head + "'" + end
    ensures Tail(from, to) == "'" + from + "' TO " + ("'" + (head + "'" + end))
  {
    var a, b := "'" + from, "' TO ";
    assert Tail(from, to) == a + (b + ("'" + (to + "';")));
    assert a + (b + ("'" + (to + "';"))) == a + b + ("'" + (to + "';"));
  }

  /** The statement for an edge names that edge exactly when both ids are safe; otherwise it
      names another or does not parse, whatever else the lexer knows. */
  lemma NamesOwnIff(from: Id, to: Id, words: Lexer)
    ensures Named(Tail(from, to), words) == Some((from, to)) <==> Safe(from) && Safe(to)
  {
    var last := "'" + (to + "'" + ";");
    TailEnds(from, to, to, ";");
    FirstRead(from, last, words);
    SecondRead(to, words);
    hide Tokens, Safe, Prepend, Tail;
    IdsOf(from, to, Tokens(last, words));
  }

  lemma NoQuote()
    ensures Closing(";").None?
  {
    assert Closing(";"[1..]).None?;
  }

  /** A second id that closes its quote and begins a comment names the edge to what comes before. */
  lemma CommentNamesOther(from: Id, to: Id, words: Lexer)
    requires Safe(from) && Safe(to)
    ensures Named(Tail(from, to + "'; --"), words) == Some((from, to))
  {
    var end := "; --';";
    var last := "'" + (to + "'" + end);
    TailEnds(from, to + "'; --", to, end);
    FirstRead(from, last, words);
    LiteralTokens(to, end, words);
    SafeCloses(to, end);
    SafeUnescaped(to);
    var body := to + "'" + end;
    assert body[..|to|] == to && body[|to| + 1..] == end;
    CommentTokens(words);
    assert [Text(to)] + [Semicolon] == [Text(to), Semicolon];
    hide Tokens, Closing, Safe, Unescape, Ids, Tail;
    IdsOf(from, to, Tokens(last, words));
  }

  lemma CommentTokens(words: Lexer)
    ensures Tokens("; --';", words) == Some([Semicolon])
  {
    var a, b, c := "; --';", " --';", "--';";
    assert a[1..] == b && b[1..] == c && c[..2] == "--" && c[2..] == "';";
    assert "';"[1..] == ";" && ";"[1..] == "";
    assert CommentLength("") == 0;
    assert CommentLength(";") == 1;
    assert CommentLength("';") == 2;
    assert c[4..] == "";
    assert Tokens(c, words) == Some([]);
    assert b[0] == ' ' && Tokens(b, words) == Tokens(c, words);
    assert a[0] == ';' && a[..2][0] == ';';
    assert Tokens(a, words) == Prepend(Semicolon, Tokens(b, words));
    assert [Semicolon] + [] == [Semicolon];
  }
}
