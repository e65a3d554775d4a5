/** Quoting for a POSIX shell, read back by a tokenizer for its quoting rules. */
module Shell {
  import opened Foundation
  import opened Text
  import opened Manifests

  // ---------------------------------------------------------------- quoting

  predicate IsSafe(c: char) {
    || 'a' <= c <= 'z' || 'A' <= c <= 'Z' || '0' <= c <= '9'
    || c == '_' || c == '-' || c == '.' || c == '/' || c == ':' || c == '@' || c == '%' || c == '+' || c == '='
       || c == ','
  }

  /** Each single quote closes the quotation, is escaped on its own, and reopens it. */
  function EscapeQuotes(raw: string): string {
    if raw == "" then "" else (if raw[0] == '\'' then "'\\''" else [raw[0]]) + EscapeQuotes(raw[1..])
  }

  predicate AllSafe(s: string) {
    forall i :: 0 <= i < |s| ==> IsSafe(s[i])
  }

  function ShellQuote(raw: string): string {
    if raw != "" && AllSafe(raw) then raw
    else "'" + EscapeQuotes(raw) + "'"
  }

  lemma SafeMeans(c: char)
    ensures IsSafe(c) <==>
            'a' <= c <= 'z' || 'A' <= c <= 'Z' || '0' <= c <= '9' || c in "_-./:@%+=,"
  {
    var all := "_-./:@%+=,";
    assert all[0] == '_' && all[1] == '-' && all[2] == '.' && all[3] == '/' && all[4] == ':';
    assert all[5] == '@' && all[6] == '%' && all[7] == '+' && all[8] == '=' && all[9] == ',';
  }

  /** A text is left as it is exactly when it has characters and all of them are plain. */
  lemma UnquotedExactly(raw: string)
    ensures ShellQuote(raw) == raw <==> raw != "" && forall i :: 0 <= i < |raw| ==> IsSafe(raw[i])
  {
    if !(raw != "" && AllSafe(raw)) {
      assert ShellQuote(raw)[0] == '\'';
      LongerQuoted(raw);
    }
  }

  lemma {:induction false} LongerQuoted(raw: string)
    ensures |EscapeQuotes(raw)| >= |raw|
  {
    if raw != "" {
      LongerQuoted(raw[1..]);
    }
  }

  // ---------------------------------------------------------------- the shell's side

  predicate IsBlank(c: char) {
    c == ' ' || c == '\t' || c == '\n'
  }

  /** Characters that mean something to the shell outside quotes (section 2.2 of the Shell Command Language). */
  predicate IsSpecial(c: char) {
    || c == '|' || c == '&' || c == ';' || c == '<' || c == '>' || c == '(' || c == ')' || c == '$' || c == '`'
    || c == '"' || c == '*' || c == '?' || c == '[' || c == ']' || c == '#' || c == '~' || c == '^' || c == '!'
    || c == '{' || c == '}'
  }

  /**
   The words of a command line made of plain characters, single quotes and backslash escapes;
   undefined when a quotation is left open or anything else special occurs. `word` is the word
   being read, `quoted` tells whether the reader is inside single quotes.
   */
  function Words(s: string, word: Option<string>, quoted: bool): Option<seq<string>>
    requires quoted ==> word.Some?
  {
    if quoted then
      if s == "" then None
      else if s[0] == '\'' then Words(s[1..], word, false)
      else Words(s[1..], Some(word.value + [s[0]]), true)
    else
      var sofar := if word.Some? then word.value else "";
      if s == "" then Some(OptionSeq(word))
      else if IsBlank(s[0]) then
        var rest :- Words(s[1..], None, false);
        Some(OptionSeq(word) + rest)
      else if s[0] == '\'' then Words(s[1..], Some(sofar), true)
      else if s[0] == '\\' then
        if |s| == 1 then None
        else if s[1] == '\n' then Words(s[2..], word, false)
        else Words(s[2..], Some(sofar + [s[1]]), false)
      else if IsSpecial(s[0]) then None
      else Words(s[1..], Some(sofar + [s[0]]), false)
  }

  function Tokenize(s: string): Option<seq<string>> {
    Words(s, None, false)
  }

  lemma WordsQuoted(c: char, s: string, word: string)
    ensures Words([c] + s, Some(word), true) == if c == '\'' then Words(s, Some(word), false)
            else Words(s, Some(word + [c]), true)
  {
    assert ([c] + s)[1..] == s;
  }

  lemma WordsOpens(s: string, word: Option<string>)
    ensures Words("'" + s, word, false) == Words(s, Some(if word.Some? then word.value else ""), true)
  {
    assert ("'" + s)[1..] == s;
  }

  lemma WordsEscapedQuote(s: string, word: string)
    ensures Words("\\'" + s, Some(word), false) == Words(s, Some(word + "'"), false)
  {
    assert ("\\'" + s)[2..] == s;
    assert word + ['\''] == word + "'";
  }

  /** Inside quotes, the escaped text is read back as the text itself. */
  lemma {:induction false} ReadsEscaped(raw: string, rest: string, word: string)
    ensures Words(EscapeQuotes(raw) + "'" + rest, Some(word), true) == Words(rest, Some(word + raw), false)
    decreases |raw|
  {
    hide Words;
    if raw == "" {
      assert EscapeQuotes(raw) + "'" + rest == ['\''] + rest;
      WordsQuoted('\'', rest, word);
      assert word + raw == word;
    } else {
      var tail := EscapeQuotes(raw[1..]) + "'" + rest;
      assert word + raw == (word + [raw[0]]) + raw[1..];
      if raw[0] == '\'' {
        assert EscapeQuotes(raw) + "'" + rest == ['\''] + ("\\'" + ("'" + tail));
        WordsQuoted('\'', "\\'" + ("'" + tail), word);
        WordsEscapedQuote("'" + tail, word);
        WordsOpens(tail, Some(word + "'"));
        ReadsEscaped(raw[1..], rest, word + "'");
        assert word + "'" == word + [raw[0]];
      } else {
        assert EscapeQuotes(raw) + "'" + rest == [raw[0]] + tail;
        WordsQuoted(raw[0], tail, word);
        ReadsEscaped(raw[1..], rest, word + [raw[0]]);
      }
    }
  }

  lemma WordsPlain(c: char, s: string, word: Option<string>)
    requires IsSafe(c)
    ensures Words([c] + s, word, false) == Words(s, Some((if word.Some? then word.value else "") + [c]), false)
  {
    assert ([c] + s)[1..] == s;
  }

  lemma {:induction false} ReadsSafe(raw: string, rest: string, word: string)
    requires AllSafe(raw)
    ensures Words(raw + rest, Some(word), false) == Words(rest, Some(word + raw), false)
    decreases |raw|
  {
    hide Words, IsSafe;
    if raw == "" {
      assert raw + rest == rest && word + raw == word;
    } else {
      assert raw + rest == [raw[0]] + (raw[1..] + rest);
      WordsPlain(raw[0], raw[1..] + rest, Some(word));
      ReadsSafe(raw[1..], rest, word + [raw[0]]);
      assert word + raw == (word + [raw[0]]) + raw[1..];
    }
  }

  lemma ReadsSafeWord(raw: string, rest: string)
    requires raw != "" && AllSafe(raw)
    ensures Words(raw + rest, None, false) == Words(rest, Some(raw), false)
  {
    hide Words, IsSafe;
    var c, tail := raw[0], raw[1..];
    assert raw == [c] + tail && raw + rest == [c] + (tail + rest) && "" + [c] == [c];
    WordsPlain(c, tail + rest, None);
    ReadsSafe(tail, rest, [c]);
  }

  /** A quoted string is read as one word, whatever follows. */
  lemma ReadsQuoted(raw: string, rest: string)
    ensures Words(ShellQuote(raw) + rest, None, false) == Words(rest, Some(raw), false)
  {
    hide Words, IsSafe;
    if raw != "" && AllSafe(raw) {
      ReadsSafeWord(raw, rest);
    } else {
      assert ShellQuote(raw) + rest == "'" + (EscapeQuotes(raw) + "'" + rest);
      WordsOpens(EscapeQuotes(raw) + "'" + rest, None);
      ReadsEscaped(raw, rest, "");
      assert "" + raw == raw;
    }
  }

  lemma WordsEnd(word: string)
    ensures Words("", Some(word), false) == Some([word])
  {
  }

  lemma WordsNext(rest: string, word: string)
    ensures Words(" " + rest, Some(word), false)
            == match Words(rest, None, false) case None => None case Some(words) => Some([word] + words)
  {
    assert (" " + rest)[1..] == rest;
  }

  /** For every string, the quoted form is exactly one word, equal to it. */
  lemma QuoteIsOneWord(raw: string)
    ensures Tokenize(ShellQuote(raw)) == Some([raw])
  {
    hide Words, ShellQuote;
    ReadsQuoted(raw, "");
    assert ShellQuote(raw) + "" == ShellQuote(raw);
    WordsEnd(raw);
  }

  /** A command line: its arguments quoted and separated by blanks. */
  function CommandLine(args: seq<string>): string
    requires args != []
  {
    if |args| == 1 then ShellQuote(args[0]) else ShellQuote(args[0]) + (" " + CommandLine(args[1..]))
  }

  lemma {:induction false} CommandReadsBack(args: seq<string>)
    requires args != []
    ensures Tokenize(CommandLine(args)) == Some(args)
    decreases |args|
  {
    hide Words, ShellQuote;
    if |args| == 1 {
      QuoteIsOneWord(args[0]);
      assert args == [args[0]];
    } else {
      CommandReadsBack(args[1..]);
      ReadsQuoted(args[0], " " + CommandLine(args[1..]));
      WordsNext(CommandLine(args[1..]), args[0]);
      assert args == [args[0]] + args[1..];
    }
  }

  /** The verification command printed for one proof. */
  function OpensslCommand(statement: string, signature: string, publicKey: string): string {
    "openssl pkeyutl -verify -pubin -inkey " + ShellQuote(publicKey) + " -rawin -in " + ShellQuote(statement) +
    " -sigfile " + ShellQuote(signature)
  }

  lemma SafeIsItself(word: string)
    requires word != "" && AllSafe(word)
    ensures ShellQuote(word) == word
  {
  }

  lemma OpeningText()
    ensures "openssl" + " " + "pkeyutl" + " " + "-verify" + " " + "-pubin" + " " + "-inkey" + " "
            == "openssl pkeyutl -verify -pubin -inkey "
  {
  }

  lemma Openings()
    ensures ShellQuote("openssl") == "openssl" && ShellQuote("pkeyutl") == "pkeyutl"
            && ShellQuote("-verify") == "-verify"
    ensures ShellQuote("-pubin") == "-pubin" && ShellQuote("-inkey") == "-inkey"
  {
    SafeIsItself("openssl");
    SafeIsItself("pkeyutl");
    SafeIsItself("-verify");
    SafeIsItself("-pubin");
    SafeIsItself("-inkey");
  }

  lemma Options()
    ensures " " + "-rawin" + " " + "-in" + " " == " -rawin -in " && " " + "-sigfile" + " " == " -sigfile "
    ensures ShellQuote("-rawin") == "-rawin" && ShellQuote("-in") == "-in" && ShellQuote("-sigfile") == "-sigfile"
  {
    SafeIsItself("-rawin");
    SafeIsItself("-in");
    SafeIsItself("-sigfile");
  }

  /** Whatever the file names are, the shell passes them on as single arguments. */
  lemma OpensslCommandArguments(statement: string, signature: string, publicKey: string)
    ensures Tokenize(OpensslCommand(statement, signature, publicKey))
            == Some(["openssl", "pkeyutl", "-verify", "-pubin"] +
                    (["-inkey", publicKey, "-rawin", "-in"] + [statement, "-sigfile", signature]))
  {
    hide Words, ShellQuote, OpensslCommand, CommandLine;
    var files := ["-inkey", publicKey, "-rawin", "-in"] + [statement, "-sigfile", signature];
    var args := ["openssl", "pkeyutl", "-verify", "-pubin"] + files;
    FourArguments("openssl", "pkeyutl", "-verify", "-pubin", files);
    FourArguments("-inkey", publicKey, "-rawin", "-in", [statement, "-sigfile", signature]);
    ThreeArguments(statement, "-sigfile", signature);
    OpeningText();
    Openings();
    Options();
    Assembled("openssl", "pkeyutl", "-verify", "-pubin", "-inkey", "-rawin", "-in", "-sigfile",
              ShellQuote(publicKey), ShellQuote(statement), ShellQuote(signature));
    CommandFor(statement, signature, publicKey);
    CommandReadsBack(args);
  }

  lemma CommandFor(statement: string, signature: string, publicKey: string)
    ensures OpensslCommand(statement, signature, publicKey)
            == "openssl pkeyutl -verify -pubin -inkey " + ShellQuote(publicKey) + " -rawin -in "
              + ShellQuote(statement) +
               " -sigfile " + ShellQuote(signature)
  {
  }

  /** Concatenation in either grouping. */
  lemma Assembled(a: string, b: string, c: string, d: string, e: string, f: string, g: string, h: string,
                  k: string, s: string, t: string)
    ensures a + " " + b + " " + c + " " + d + " " + (e + " " + k + " " + f + " " + g + " " + (s + " " + h + " " + t))
            == (a + " " + b + " " + c + " " + d + " " + e + " ") + k + (" " + f + " " + g + " ") + s + (" " + h + " ")
              + t
  {
    var tail := s + " " + h + " " + t;
    assert (" " + f + " " + g + " ") + s + (" " + h + " ") + t == " " + f + " " + g + " " + tail;
    var files := e + " " + k + " " + f + " " + g + " " + tail;
    assert e + " " + (k + (" " + f + " " + g + " " + tail)) == files;
    assert (a + " " + b + " " + c + " " + d + " " + e + " ") + k + (" " + f + " " + g + " " + tail)
           == a + " " + b + " " + c + " " + d + " " + (e + " " + (k + (" " + f + " " + g + " " + tail)));
  }

  lemma ThreeArguments(x: string, y: string, z: string)
    ensures CommandLine([x, y, z]) == ShellQuote(x) + " " + ShellQuote(y) + " " + ShellQuote(z)
  {
    hide ShellQuote;
    var args := [x, y, z];
    assert args[1..] == [y, z] && args[1..][1..] == [z];
    assert CommandLine([y, z]) == ShellQuote(y) + (" " + ShellQuote(z));
    assert CommandLine(args) == ShellQuote(x) + (" " + (ShellQuote(y) + (" " + ShellQuote(z))));
  }

  /** The command suggested after an import; the session id is not quoted. */
  function NextCommand(sessionId: string, journalPath: string): string {
    "akmon bundle export " + sessionId + " --journal " + ShellQuote(journalPath) + " --output "
      + ShellQuote(sessionId + ".akmon")
  }

  lemma NextTexts()
    ensures "akmon" + " " + "bundle" + " " + "export" + " " == "akmon bundle export "
    ensures " " + "--journal" + " " == " --journal " && " " + "--output" + " " == " --output "
  {
  }

  lemma NextWords()
    ensures ShellQuote("akmon") == "akmon" && ShellQuote("bundle") == "bundle" && ShellQuote("export") == "export"
    ensures ShellQuote("--journal") == "--journal" && ShellQuote("--output") == "--output"
  {
    SafeIsItself("akmon");
    SafeIsItself("bundle");
    SafeIsItself("export");
    SafeIsItself("--journal");
    SafeIsItself("--output");
  }

  /** For a session id that needs no quoting the shell reads the intended arguments. */
  lemma NextCommandArguments(sessionId: string, journalPath: string)
    requires sessionId != "" && AllSafe(sessionId)
    ensures Tokenize(NextCommand(sessionId, journalPath))
            == Some(["akmon", "bundle", "export", sessionId]
                    + (["--journal", journalPath, "--output"] + [sessionId + ".akmon"]))
  {
    hide Words, ShellQuote, CommandLine, AllSafe;
    var file := sessionId + ".akmon";
    var tail := ["--journal", journalPath, "--output"] + [file];
    var args := ["akmon", "bundle", "export", sessionId] + tail;
    SafeIsItself(sessionId);
    NextWords();
    NextTexts();
    FourArguments("akmon", "bundle", "export", sessionId, tail);
    assert tail == ["--journal", journalPath, "--output", file] + [];
    FourAlone("--journal", journalPath, "--output", file);
    var k, f := ShellQuote(journalPath), ShellQuote(file);
    assert tail == ["--journal", journalPath, "--output", file];
    NextAssembled("akmon", "bundle", "export", sessionId, "--journal", k, "--output", f);
    assert CommandLine(args) == NextCommand(sessionId, journalPath);
    CommandReadsBack(args);
  }

  lemma UuidNeedsNoQuotes(sessionId: string)
    requires IsHyphenatedUuid(sessionId)
    ensures sessionId != "" && AllSafe(sessionId)
  {
    forall i | 0 <= i < |sessionId|
      ensures IsSafe(sessionId[i])
    {
      assert sessionId[i] == '-' || IsLowerHexDigit(sessionId[i]);
    }
  }

  /** So it does for every session, since a session id is a UUID. */
  lemma NextCommandOfSession(sessionId: string, journalPath: string)
    requires IsHyphenatedUuid(sessionId)
    ensures Tokenize(NextCommand(sessionId, journalPath))
            == Some(["akmon", "bundle", "export", sessionId, "--journal", journalPath, "--output",
                     sessionId + ".akmon"])
  {
    hide Tokenize, NextCommand, IsHyphenatedUuid, AllSafe;
    UuidNeedsNoQuotes(sessionId);
    NextCommandArguments(sessionId, journalPath);
    var options := ["--journal", journalPath, "--output"] + [sessionId + ".akmon"];
    assert ["akmon", "bundle", "export", sessionId] + options
           == ["akmon", "bundle", "export", sessionId, "--journal", journalPath, "--output", sessionId + ".akmon"];
  }

  lemma NextAssembled(a: string, b: string, c: string, d: string, e: string, k: string, g: string, f: string)
    ensures a + " " + b + " " + c + " " + d + " " + (e + " " + k + " " + g + " " + f)
            == (a + " " + b + " " + c + " ") + d + (" " + e + " ") + k + (" " + g + " ") + f
  {
  }

  lemma FourAlone(w: string, x: string, y: string, z: string)
    ensures CommandLine([w, x, y, z]) == ShellQuote(w) + " " + ShellQuote(x) + " " + ShellQuote(y) + " " + ShellQuote(z)
  {
    hide ShellQuote;
    var args := [w, x, y, z];
    assert args[1..] == [x, y, z];
    ThreeArguments(x, y, z);
    assert CommandLine(args) == ShellQuote(w) + (" " + CommandLine([x, y, z]));
  }

  lemma FourArguments(w: string, x: string, y: string, z: string, rest: seq<string>)
    requires rest != []
    ensures CommandLine([w, x, y, z] + rest)
            == ShellQuote(w) + " " + ShellQuote(x) + " " + ShellQuote(y) + " " + ShellQuote(z) + " " + CommandLine(rest)
  {
    hide ShellQuote;
    var args := [w, x, y, z] + rest;
    assert args[1..] == [x, y, z] + rest && args[1..][1..] == [y, z] + rest;
    assert args[1..][1..][1..] == [z] + rest && args[1..][1..][1..][1..] == rest;
    var a, b, c, d, e := ShellQuote(w), ShellQuote(x), ShellQuote(y), ShellQuote(z), CommandLine(rest);
    assert CommandLine([z] + rest) == d + (" " + e);
    assert CommandLine([y, z] + rest) == c + (" " + (d + (" " + e)));
    assert CommandLine([x, y, z] + rest) == b + (" " + (c + (" " + (d + (" " + e)))));
    assert CommandLine(args) == a + (" " + (b + (" " + (c + (" " + (d + (" " + e)))))));
  }
}
