/** Escaping text for an AppleScript double-quoted string literal
    (crates/opencrust-channels/src/imessage/sender.rs, `applescript_escape`). */
module AppleScript {
  import opened Common

  /** The four characters that cannot appear raw inside the literal. */
  predicate Special(c: char) {
    c == '\\' || c == '"' || c == '\n' || c == '\r'
  }

  /** The replacement for one input character. */
  function EscapeChar(c: char): (r: string)
    ensures Special(c) ==> |r| == 2 && r[0] == '\\'
    ensures !Special(c) ==> r == [c]
  {
    match c
    case '\\' => "\\\\"
    case '"' => "\\\""
    case '\n' => "\\n"
    case '\r' => "\\r"
    case _ => [c]
  }

  function CountSpecial(s: string): nat {
    if s == [] then 0 else (if Special(s[0]) then 1 else 0) + CountSpecial(s[1..])
  }

  /** `applescript_escape`. */
  function Escape(s: string): (r: string)
    ensures |r| == |s| + CountSpecial(s)
    ensures '\n' !in r && '\r' !in r
    ensures ClosedLiteral(r)
  {
    if s == [] then [] else EscapeChar(s[0]) + Escape(s[1..])
  }

  /** Read as the body of an AppleScript string literal, `t` never ends the
      literal early: every backslash starts a two-character escape, and no
      double quote stands outside such an escape. */
  predicate ClosedLiteral(t: string)
    decreases |t|
  {
    if t == [] then true
    else if t[0] == '\\' then |t| >= 2 && ClosedLiteral(t[2..])
    else t[0] != '"' && ClosedLiteral(t[1..])
  }

  /** The reverse translation: decode the four escapes; any other use of a
      backslash is malformed. */
  function Unescape(t: string): Option<string>
    decreases |t|
  {
    if t == [] then Some([])
    else if t[0] == '\\' then
      if |t| < 2 then None
      else
        var c := match t[1] case '\\' => Some('\\') case '"' => Some('"')
                            case 'n' => Some('\n') case 'r' => Some('\r')
                            case _ => None;
        match (c, Unescape(t[2..]))
        case (Some(x), Some(rest)) => Some([x] + rest)
        case _ => None
    else
      match Unescape(t[1..])
      case Some(rest) => Some([t[0]] + rest)
      case None => None
  }

  /** Decoding undoes the escape of one character in front of any
      decodable text. */
  lemma UnescapeCons(c: char, rest: string, x: string)
    requires Unescape(rest) == Some(x)
    ensures Unescape(EscapeChar(c) + rest) == Some([c] + x)
  {
    var t := EscapeChar(c) + rest;
    if Special(c) {
      assert t[0] == '\\' && t[1] == EscapeChar(c)[1] && t[2..] == rest;
    } else {
      assert t[0] == c && t[1..] == rest;
    }
  }

  /** Decoding an escaped text gives the original back. */
  lemma {:induction false} UnescapeEscape(s: string)
    ensures Unescape(Escape(s)) == Some(s)
  {
    if s != [] {
      UnescapeEscape(s[1..]);
      UnescapeCons(s[0], Escape(s[1..]), s[1..]);
      assert [s[0]] + s[1..] == s;
    }
  }

  /** Hence escaping is injective: different texts never escape alike. */
  lemma EscapeInjective(a: string, b: string)
    requires Escape(a) == Escape(b)
    ensures a == b
  {
    UnescapeEscape(a);
    UnescapeEscape(b);
  }

  /** Escaping distributes over concatenation. */
  lemma {:induction false} EscapeAppend(a: string, b: string)
    ensures Escape(a + b) == Escape(a) + Escape(b)
  {
    if a == [] {
      assert a + b == b;
    } else {
      assert (a + b)[0] == a[0] && (a + b)[1..] == a[1..] + b;
      EscapeAppend(a[1..], b);
    }
  }

  /** Text without special characters is left alone. */
  lemma {:induction false} EscapePlain(s: string)
    requires forall c :: c in s ==> !Special(c)
    ensures Escape(s) == s
  {
    if s != [] {
      assert s[0] in s;
      assert forall c :: c in s[1..] ==> c in s;
      EscapePlain(s[1..]);
    }
  }

  lemma EscapeEmpty()
    ensures Escape("") == ""
  {
  }

  lemma HelloPlain()
    ensures forall c :: c in "hello world" ==> !Special(c)
  {
  }

  lemma EscapeHello()
    ensures Escape("hello world") == "hello world"
  {
    HelloPlain();
    EscapePlain("hello world");
  }

  lemma EscapeQuotes()
    ensures Escape("\"hi\"") == "\\\"hi\\\""
  {
  }

  /** Escaping distributes over a concatenation of three pieces. */
  lemma EscapeAppend3(a: string, b: string, c: string)
    ensures Escape(a + b + c) == Escape(a) + Escape(b) + Escape(c)
  {
    EscapeAppend(a + b, c);
    EscapeAppend(a, b);
  }

  lemma EscapeHeSaid()
    ensures Escape("He said ") == "He said "
  {
    EscapePlain("He said ");
  }

  lemma EscapeAndLeft()
    ensures Escape("and") == "and" && Escape("left") == "left"
  {
    EscapePlain("and");
    EscapePlain("left");
  }

  lemma EscapeNewline()
    ensures Escape("\n") == "\\n"
  {
  }

  lemma EscapeBackslash()
    ensures Escape("\\") == "\\\\"
  {
  }

  lemma EscapeFirstLine()
    ensures Escape("He said " + "\"hi\"" + "\n") == "He said " + "\\\"hi\\\"" + "\\n"
  {
    EscapeAppend3("He said ", "\"hi\"", "\n");
    EscapeHeSaid();
    EscapeQuotes();
    EscapeNewline();
  }

  lemma EscapeSecondLine()
    ensures Escape("and" + "\\" + "left") == "and" + "\\\\" + "left"
  {
    EscapeAppend3("and", "\\", "left");
    EscapeAndLeft();
    EscapeBackslash();
  }

  lemma EscapeCarriageReturn()
    ensures Escape("\r") == "\\r"
  {
  }

  /** A carriage return between plain characters becomes `\r`. */
  lemma EscapeCarriageReturnBetween()
    ensures Escape("a" + "\r" + "b") == "a" + "\\r" + "b"
  {
    EscapeAppend3("a", "\r", "b");
    EscapeCarriageReturn();
  }

  /** The combined test case `He said "hi"` LF `and\left`, stated over its
      two lines: plain text stays, each special character gains a backslash. */
  lemma EscapeCombined()
    ensures Escape(("He said " + "\"hi\"" + "\n") + ("and" + "\\" + "left"))
         == ("He said " + "\\\"hi\\\"" + "\\n") + ("and" + "\\\\" + "left")
  {
    EscapeAppend("He said " + "\"hi\"" + "\n", "and" + "\\" + "left");
    EscapeFirstLine();
    EscapeSecondLine();
  }

  lemma EscapeQuote()
    ensures Escape("\"") == "\\\""
  {
  }

  lemma EscapeSayWords()
    ensures Escape("say ") == "say " && Escape("hello") == "hello"
  {
    EscapePlain("say ");
    EscapePlain("hello");
  }

  lemma EscapePathWord()
    ensures Escape("path") == "path"
  {
    EscapePlain("path");
  }

  lemma EscapeToFileWords()
    ensures Escape("to") == "to" && Escape("file") == "file"
  {
    EscapePlain("to");
    EscapePlain("file");
  }

  lemma EscapeLineWords()
    ensures Escape("line1") == "line1" && Escape("line2") == "line2"
  {
    EscapePlain("line1");
    EscapePlain("line2");
  }

  /** The quote test: `say "hello"` gets both of its quotes escaped. */
  lemma EscapeSayHello()
    ensures Escape("say " + ("\"" + "hello" + "\""))
         == "say " + ("\\\"" + "hello" + "\\\"")
  {
    EscapeAppend("say ", "\"" + "hello" + "\"");
    EscapeAppend3("\"", "hello", "\"");
    EscapeSayWords();
    EscapeQuote();
  }

  /** The backslash test: `path\to\file` gets each backslash doubled. */
  lemma EscapePathBackslashes()
    ensures Escape("path" + "\\" + ("to" + "\\" + "file"))
         == "path" + "\\\\" + ("to" + "\\\\" + "file")
  {
    EscapeAppend3("path", "\\", "to" + "\\" + "file");
    EscapeAppend3("to", "\\", "file");
    EscapePathWord();
    EscapeToFileWords();
    EscapeBackslash();
  }

  /** The newline test: `line1` LF `line2` has its line feed written as `\n`. */
  lemma EscapeLines()
    ensures Escape("line1" + "\n" + "line2") == "line1" + "\\n" + "line2"
  {
    EscapeAppend3("line1", "\n", "line2");
    EscapeLineWords();
    EscapeNewline();
  }
}
