/** What a JSON string stands for (section 7 of RFC 8259), against what the printers write and the readers read
    (sdk/json/json.c, components/model-runtime/protocol/protocol.c, components/intent-classifier/main.c). */
module JsonMeaning {
  import opened CStrings
  import opened Json
  import opened Register
  import RuntimeText

  // ---- the standard ----

  /** What the character behind a backslash stands for; None also for a character given by its number. */
  function EscapeMeaning(c: char): Option<char> {
    match c
    case '"' => Some('"')
    case '\\' => Some('\\')
    case '/' => Some('/')
    case 'b' => Some(8 as char)
    case 'f' => Some(12 as char)
    case 'n' => Some('\n')
    case 'r' => Some('\r')
    case 't' => Some('\t')
    case _ => None
  }

  function Before(c: Option<char>, rest: Option<string>): Option<string> {
    if c.Some? && rest.Some? then Some([c.value] + rest.value) else None
  }

  /** The text that stands between the quotes of a string means this text; None if it may not stand there, or gives a
      character by its number. */
  function Meaning(body: string): Option<string> {
    if body == "" then Some("")
    else if body[0] == '\\' then
      if |body| == 1 then None else Before(EscapeMeaning(body[1]), Meaning(body[2..]))
    else if body[0] == '"' || body[0] < ' ' then None
    else Before(Some(body[0]), Meaning(body[1..]))
  }

  // ---- the printers ----

  /** No control characters but these. */
  predicate OnlyControls(s: string, controls: string) {
    forall c :: c in s ==> c >= ' ' || c in controls
  }

  lemma OnlyControlsCons(c: char, s: string, controls: string)
    ensures OnlyControls([c] + s, controls) <==> (c >= ' ' || c in controls) && OnlyControls(s, controls)
  {
    assert c in [c] + s && forall d :: d in s ==> d in [c] + s;
  }

  lemma MeaningOfEscape(c: char, rest: string)
    ensures Meaning(EscapeChar(c) + rest) == if c >= ' ' || c in "\n\r\t" then Before(Some(c), Meaning(rest)) else None
  {
    var e := EscapeChar(c);
    assert (e + rest)[|e|..] == rest;
  }

  /** What the SDK escapes means the text it was given exactly when that holds no control characters other than line
      feeds, carriage returns and tabs; otherwise it is no JSON string at all. */
  lemma {:induction false} EscapedMeansExactly(src: string)
    ensures Meaning(EscapeAll(src)) == if OnlyControls(src, "\n\r\t") then Some(src) else None
  {
    if src != "" {
      EscapedMeansExactly(src[1..]);
      MeaningOfEscape(src[0], EscapeAll(src[1..]));
      assert src == [src[0]] + src[1..];
      OnlyControlsCons(src[0], src[1..], "\n\r\t");
    }
  }

  lemma MeaningOfRuntimeChar(c: char, rest: string)
    ensures Meaning(RuntimeText.RuntimeChar(c) + rest)
         == if c >= ' ' || c in "\n" then Before(Some(c), Meaning(rest)) else None
  {
    var e := RuntimeText.RuntimeChar(c);
    assert (e + rest)[|e|..] == rest;
  }

  /** And what the model runtime escapes, exactly when it holds none other than line feeds. */
  lemma {:induction false} GeneratedMeansExactly(text: string)
    ensures Meaning(RuntimeText.RuntimeEscaped(text)) == if OnlyControls(text, "\n") then Some(text) else None
  {
    if text != "" {
      GeneratedMeansExactly(text[1..]);
      MeaningOfRuntimeChar(text[0], RuntimeText.RuntimeEscaped(text[1..]));
      assert text == [text[0]] + text[1..];
      OnlyControlsCons(text[0], text[1..], "\n");
    }
  }

  // ---- the readers ----

  /** Every escape of the body is one that the reader takes for what it means. */
  predicate Understands(esc: char -> char, body: string) {
    if |body| < 2 then true
    else if body[0] == '\\' then EscapeMeaning(body[1]) == Some(esc(body[1])) && Understands(esc, body[2..])
    else Understands(esc, body[1..])
  }

  lemma ReadFirst(esc: char -> char, body: string, tail: string, room: nat)
    requires Meaning(body).Some? && body != "" && room > 0
    ensures var n := if body[0] == '\\' then 2 else 1;
            && n <= |body| && Meaning(body[n..]).Some?
            && Meaning(body).value
               == [if n == 2 then EscapeMeaning(body[1]).value else body[0]] + Meaning(body[n..]).value
            && ReadBy(esc, body + "\"" + tail, room)
               == [if n == 2 then esc(body[1]) else body[0]] + ReadBy(esc, body[n..] + "\"" + tail, room - 1)
            && (n == 2 ==> EscapeMeaning(body[1]).Some?)
  {
    var n := if body[0] == '\\' then 2 else 1;
    var text := body + "\"" + tail;
    assert text[n..] == body[n..] + "\"" + tail;
  }

  lemma SameCons(c: char, d: char, a: string, b: string)
    ensures [c] + a == [d] + b <==> c == d && a == b
  {
    assert ([c] + a)[0] == c && ([d] + b)[0] == d && ([c] + a)[1..] == a && ([d] + b)[1..] == b;
  }

  /** A reader reads a string as what it means exactly when it understands all its escapes. */
  lemma {:induction false} ReadsMeaningExactly(esc: char -> char, body: string, tail: string)
    requires Meaning(body).Some?
    ensures ReadBy(esc, body + "\"" + tail, |Meaning(body).value|) == Meaning(body).value <==> Understands(esc, body)
    decreases |body|
  {
    if body == "" {
      assert body + "\"" + tail == "\"" + tail;
    } else {
      var n, s := if body[0] == '\\' then 2 else 1, Meaning(body).value;
      ReadFirst(esc, body, tail, 1);
      ReadFirst(esc, body, tail, |s|);
      ReadsMeaningExactly(esc, body[n..], tail);
      SameCons(if n == 2 then esc(body[1]) else body[0], s[0], ReadBy(esc, body[n..] + "\"" + tail, |s| - 1),
               Meaning(body[n..]).value);
      assert s[1..] == Meaning(body[n..]).value;
    }
  }

  /** The escapes a body uses are among these. */
  predicate EscapesAmong(body: string, escapes: string) {
    if |body| < 2 then true
    else if body[0] == '\\' then body[1] in escapes && EscapesAmong(body[2..], escapes)
    else EscapesAmong(body[1..], escapes)
  }

  lemma {:induction false} UnderstandsAmong(esc: char -> char, body: string, escapes: string)
    requires forall c :: c in escapes <==> EscapeMeaning(c) == Some(esc(c))
    ensures Understands(esc, body) <==> EscapesAmong(body, escapes)
  {
    if |body| >= 2 {
      UnderstandsAmong(esc, body[1..], escapes);
      UnderstandsAmong(esc, body[2..], escapes);
    }
  }

  /** The SDK reads a string as what it means exactly when it holds no escaped backspace or form feed. */
  lemma SdkReadsExactly(body: string, tail: string)
    requires Meaning(body).Some?
    ensures Unescaped(body + "\"" + tail, |Meaning(body).value|) == Meaning(body).value <==>
              EscapesAmong(body, "\"\\/nrt")
  {
    UnescapedReads(body + "\"" + tail, |Meaning(body).value|);
    ReadsMeaningExactly(UnescapeChar, body, tail);
    UnderstandsAmong(UnescapeChar, body, "\"\\/nrt");
  }

  /** Its string arrays, and the daemons' readers like it, exactly when the only escapes are of quotes, backslashes and
      slashes. */
  lemma ItemReadsExactly(body: string, tail: string)
    requires Meaning(body).Some?
    ensures ReadItem(body + "\"" + tail, |Meaning(body).value|).0 == Meaning(body).value <==>
              EscapesAmong(body, "\"\\/")
  {
    ItemReads(body + "\"" + tail, |Meaning(body).value|);
    ReadsMeaningExactly(Literal, body, tail);
    UnderstandsAmong(Literal, body, "\"\\/");
  }

  /** As with a backspace, which the printer leaves as it is and the reader takes for a letter. */
  lemma BackspaceFails()
    ensures Meaning(EscapeAll([8 as char])) == None
    ensures Meaning(['\\', 'b']) == Some([8 as char])
    ensures Unescaped(['\\', 'b'] + "\"", 1) == "b"
  {
    EscapedMeansExactly([8 as char]);
    var body := ['\\', 'b'];
    assert Meaning(body[2..]) == Some("");
    assert [8 as char] + "" == [8 as char];
    var text := body + "\"";
    assert text[0] == '\\' && text[1] == 'b';
    assert Unescaped(text[2..], 0) == "";
  }

  lemma {:induction false} ClassifierReads(s: string, room: nat)
    ensures RuntimeText.ClassifierUnescaped(s, room) == ReadBy(RuntimeText.ClassifierChar, s, room)
    decreases |s|
  {
    if |s| > 1 && room > 0 {
      ClassifierReads(s[1..], room - 1);
      ClassifierReads(s[2..], room - 1);
    }
  }

  /** The classifier exactly when they are of quotes, backslashes and line feeds. */
  lemma ClassifierReadsExactly(body: string, tail: string)
    requires Meaning(body).Some?
    ensures RuntimeText.ClassifierUnescaped(body + "\"" + tail, |Meaning(body).value|) == Meaning(body).value <==>
              EscapesAmong(body, "\"\\n")
  {
    ClassifierReads(body + "\"" + tail, |Meaning(body).value|);
    ReadsMeaningExactly(RuntimeText.ClassifierChar, body, tail);
    UnderstandsAmong(RuntimeText.ClassifierChar, body, "\"\\n");
  }
}
