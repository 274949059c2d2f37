/** IncidentDetail.parse_string_frames: reading back stack frames that were stored as printed text. */
module StackFrames {
  import opened Common
  import opened Strings

  datatype Frame = Frame(file: string, line: nat, methodName: string, moduleName: Option<string>)

  /** What the stack_frames column may hold for one frame. */
  datatype Stored = Text(text: string) | Structured(frame: Frame)

  // ---- re.search ----

  /** lead'…' with a non-empty group free of quotes, or lead followed by digits. */
  datatype Pattern = Quoted(lead: string) | Number(lead: string)

  function DigitRun(s: string): (n: nat)
    ensures n <= |s| && AllDigits(s[..n])
    ensures n < |s| ==> !IsDigit(s[n])
  {
    if s == "" || !IsDigit(s[0]) then 0 else
    var n := 1 + DigitRun(s[1..]);
    assert s[..n] == [s[0]] + s[1..][..n - 1];
    n
  }

  /** ([^']+)' at the start of s. */
  function QuotedGroup(s: string): (g: Option<string>)
    ensures g.Some? ==> g.value != ""
  {
    var j := IndexOf(s, '\'');
    if 1 <= j < |s| then Some(s[..j]) else None
  }

  /** (\d+) at the start of s. */
  function NumberGroup(s: string): (g: Option<string>)
    ensures g.Some? ==> g.value != "" && AllDigits(g.value)
  {
    var j := DigitRun(s);
    if 1 <= j then Some(s[..j]) else None
  }

  /** The group when the pattern matches at the start of s. Both repetitions are greedy. */
  function MatchHere(p: Pattern, s: string): (g: Option<string>)
    ensures g.Some? ==> g.value != "" && p.lead <= s
    ensures g.Some? && p.Number? ==> AllDigits(g.value)
  {
    if !(p.lead <= s) then None
    else match p case Quoted(_) => QuotedGroup(s[|p.lead|..]) case Number(_) => NumberGroup(s[|p.lead|..])
  }

  /** The group of the leftmost match. */
  function Search(p: Pattern, s: string): (g: Option<string>)
    ensures g.Some? ==> g.value != ""
    ensures g.Some? && p.Number? ==> AllDigits(g.value)
  {
    var here := MatchHere(p, s);
    if here.Some? then here else if s == "" then None else Search(p, s[1..])
  }

  const FILE := Quoted("file='")
  const LINE := Number("line=")
  const METHOD := Quoted("method='")
  const MODULE := Quoted("module='")

  function ParseFrame(text: string): Frame {
    var file, line, methodName := Search(FILE, text), Search(LINE, text), Search(METHOD, text);
    Frame(if file.Some? then file.value else "unknown",
          if line.Some? then ParseDecimal(line.value) else 0,
          if methodName.Some? then methodName.value else "unknown",
          Search(MODULE, text))
  }

  lemma {:induction false} NoLeadNoMatch(p: Pattern, s: string)
    requires forall i :: 0 <= i <= |s| ==> !(p.lead <= s[i..])
    ensures Search(p, s).None?
  {
    assert !(p.lead <= s[0..]) && s[0..] == s;
    if s != "" {
      forall i | 0 <= i <= |s[1..]| ensures !(p.lead <= s[1..][i..]) {
        assert s[1..][i..] == s[i + 1..];
      }
      NoLeadNoMatch(p, s[1..]);
    }
  }

  predicate Mentions(s: string, lead: string) { exists i: nat :: i <= |s| && lead <= s[i..] }

  /** A field whose name and separator occur nowhere in the text gets its default. */
  lemma MissingFieldsDefault(text: string)
    ensures !Mentions(text, "file='") ==> ParseFrame(text).file == "unknown"
    ensures !Mentions(text, "line=") ==> ParseFrame(text).line == 0
    ensures !Mentions(text, "method='") ==> ParseFrame(text).methodName == "unknown"
    ensures !Mentions(text, "module='") ==> ParseFrame(text).moduleName == None
  {
    if !Mentions(text, "file='") { NoLeadNoMatch(FILE, text); }
    if !Mentions(text, "line=") { NoLeadNoMatch(LINE, text); }
    if !Mentions(text, "method='") { NoLeadNoMatch(METHOD, text); }
    if !Mentions(text, "module='") { NoLeadNoMatch(MODULE, text); }
  }

  method ParseStringFrames(stored: Option<seq<Stored>>) returns (parsed: seq<Frame>)
    ensures stored.None? ==> parsed == []
    ensures stored.Some? ==> |parsed| == |stored.value|
    ensures stored.Some? ==> forall i :: 0 <= i < |parsed| ==>
              parsed[i] == match stored.value[i] case Text(t) => ParseFrame(t) case Structured(f) => f
  {
    if stored.None? || stored.value == [] {
      return [];
    }
    parsed := [];
    for i := 0 to |stored.value|
      invariant |parsed| == i
      invariant forall k :: 0 <= k < i ==>
                  parsed[k] == match stored.value[k] case Text(t) => ParseFrame(t) case Structured(f) => f
    {
      match stored.value[i] {
        case Text(text) =>
          var file := Search(FILE, text);
          var line := Search(LINE, text);
          var methodName := Search(METHOD, text);
          var moduleName := Search(MODULE, text);
          parsed := parsed + [Frame(
            if file.Some? then file.value else "unknown",
            if line.Some? then ParseDecimal(line.value) else 0,
            if methodName.Some? then methodName.value else "unknown",
            moduleName)];
        case Structured(frame) =>
          parsed := parsed + [frame];
      }
    }
  }

  // ---- Printing ----

  /** Strings that repr() prints between single quotes unchanged. */
  predicate Plain(s: string) {
    forall i :: 0 <= i < |s| ==> ' ' <= s[i] <= '~' && s[i] != '\'' && s[i] != '\\'
  }

  /** A string, a quote, and what follows. */
  function Quote(s: string, rest: string): string { s + ['\''] + rest }

  /** What stands between the quotes around the file and those around the method. */
  function Between(line: nat): string { " line=" + Decimal(line) + " method=" }

  /** str() of a stack frame model; `more` is whatever fields follow the module. */
  function Print(file: string, line: nat, methodName: string, moduleName: string, more: string): string {
    Quote("file=", Quote(file, Quote(Between(line), Quote(methodName, Quote(" module=", Quote(moduleName, more))))))
  }

  // ---- Searching across a quote ----

  predicate EndsWith(s: string, end: string) {
    |end| <= |s| && s[|s| - |end|..] == end
  }

  /** word'…': the search passes over text without quotes unless that text ends with the word. */
  lemma {:induction false} SkipQuote(p: Pattern, word: string, a: string, b: string)
    requires p == Quoted(word + "'") && word != "" && '\'' !in word && '\'' !in a
    ensures Search(p, Quote(a, b)) == if EndsWith(a, word) && QuotedGroup(b).Some? then QuotedGroup(b) else Search(p, b)
  {
    LeadAtQuote(word, a, b);
    if a == "" {
      assert Quote(a, b)[1..] == b;
    } else {
      assert Quote(a, b)[1..] == Quote(a[1..], b);
      SkipQuote(p, word, a[1..], b);
      if a != word { EndOfTail(a, word); }
    }
  }

  lemma EndOfTail(a: string, word: string)
    requires a != "" && a != word
    ensures EndsWith(a, word) <==> EndsWith(a[1..], word)
  {
    if |word| < |a| {
      assert a[|a| - |word|..] == a[1..][|a| - 1 - |word|..];
    }
  }

  lemma LeadAtQuote(word: string, a: string, b: string)
    requires '\'' !in word && '\'' !in a
    ensures MatchHere(Quoted(word + "'"), Quote(a, b)) == if a == word then QuotedGroup(b) else None
  {
    var lead, s := word + "'", Quote(a, b);
    if a == word {
      assert s == lead + b;
      assert s[|lead|..] == b;
    } else if lead <= s {
      var rest := s[|lead|..];
      assert s == word + ['\''] + rest;
      FirstSeparatorUnique(word, rest, a, b, '\'');
    }
  }

  /** word\d+: the first match is in the text before the quote, or after it. */
  lemma {:induction false} SkipNumber(p: Pattern, a: string, b: string)
    requires p.Number? && '\'' !in p.lead
    ensures Search(p, Quote(a, b)) == if Search(p, a).Some? then Search(p, a) else Search(p, b)
  {
    NumberBeforeQuote(p, a, b);
    if a == "" {
      assert Quote(a, b)[1..] == b;
    } else {
      assert Quote(a, b)[1..] == Quote(a[1..], b);
      SkipNumber(p, a[1..], b);
    }
  }

  lemma NumberBeforeQuote(p: Pattern, a: string, b: string)
    requires p.Number? && '\'' !in p.lead
    ensures MatchHere(p, Quote(a, b)) == MatchHere(p, a)
  {
    var s := Quote(a, b);
    if |p.lead| <= |a| {
      assert s[..|p.lead|] == a[..|p.lead|];
      assert s[|p.lead|..] == Quote(a[|p.lead|..], b);
      RunBeforeQuote(a[|p.lead|..], b);
    } else if p.lead <= s {
      LeadReachesQuote(p.lead, a, b);
    }
  }

  lemma LeadReachesQuote(lead: string, a: string, b: string)
    requires |lead| > |a| && lead <= Quote(a, b)
    ensures '\'' in lead
  {
    assert lead[|a|] == Quote(a, b)[|a|];
  }

  lemma {:induction false} RunBeforeQuote(a: string, b: string)
    ensures DigitRun(Quote(a, b)) == DigitRun(a) && NumberGroup(Quote(a, b)) == NumberGroup(a)
  {
    if a != "" {
      assert Quote(a, b)[1..] == Quote(a[1..], b);
      RunBeforeQuote(a[1..], b);
      assert Quote(a, b)[..DigitRun(a)] == a[..DigitRun(a)];
    }
  }

  // ---- The four searches ----

  lemma NoQuoteInBetween(line: nat)
    ensures '\'' !in Between(line) && EndsWith(Between(line), "method=") && !EndsWith(Between(line), "file=")
    ensures !EndsWith(Between(line), "module=")
  {
    var b := Between(line);
    assert forall c :: c in Decimal(line) ==> IsDigit(c);
    assert b[|b| - 7..] == "method=";
    assert b[|b| - 5..] == "thod=";
    assert "thod="[0] == 't' && "file="[0] == 'f' && "method="[2] == 't' && "module="[2] == 'd';
  }

  lemma GroupOf(value: string, rest: string)
    requires '\'' !in value
    ensures QuotedGroup(Quote(value, rest)) == if value == "" then None else Some(value)
  {
    var s := Quote(value, rest);
    var j := IndexOf(s, '\'');
    assert s[|value|] == '\'';
    assert s == s[..j] + ['\''] + s[j + 1..];
    FirstSeparatorUnique(s[..j], s[j + 1..], value, rest, '\'');
  }

  /** The first of two texts that ends with the word decides what is found. */
  lemma FoundAfter(p: Pattern, word: string, a: string, value: string, rest: string)
    requires p == Quoted(word + "'") && word != "" && '\'' !in word && '\'' !in a && '\'' !in value && value != ""
    ensures Search(p, Quote(a, Quote(value, rest))) == if EndsWith(a, word) then Some(value) else Search(p, Quote(value, rest))
  {
    SkipQuote(p, word, a, Quote(value, rest));
    GroupOf(value, rest);
  }

  lemma FileFound(file: string, rest: string)
    requires '\'' !in file && file != ""
    ensures Search(FILE, Quote("file=", Quote(file, rest))) == Some(file)
  {
    assert "file=" + "'" == "file='";
    FoundAfter(FILE, "file=", "file=", file, rest);
  }

  /** The line is read from the file when that holds something that looks like one. */
  lemma LineFound(file: string, line: nat, rest: string)
    ensures Search(LINE, Quote("file=", Quote(file, Quote(Between(line), rest)))) ==
            if Search(LINE, file).Some? then Search(LINE, file) else Some(Decimal(line))
  {
    SkipNumber(LINE, "file=", Quote(file, Quote(Between(line), rest)));
    SkipNumber(LINE, file, Quote(Between(line), rest));
    SkipNumber(LINE, Between(line), rest);
    NoLineInFile();
    LineInBetween(line);
  }

  lemma {:induction false} TooShort(p: Pattern, s: string)
    requires |s| < |p.lead|
    ensures Search(p, s).None?
  {
    if s != "" { TooShort(p, s[1..]); }
  }

  lemma NoLineInFile()
    ensures Search(LINE, "file=").None?
  {
    assert "file="[0] != "line="[0];
    assert !("line=" <= "file=");
    TooShort(LINE, "file="[1..]);
  }

  lemma LineInBetween(line: nat)
    ensures Search(LINE, Between(line)) == Some(Decimal(line))
  {
    var b := Between(line);
    assert b[0] == ' ' && !(LINE.lead <= b);
    assert b[1..] == "line=" + (Decimal(line) + " method=");
    assert "line=" <= b[1..] && b[1..][5..] == Decimal(line) + " method=";
    RunOf(Decimal(line), " method=");
  }

  lemma {:induction false} RunOf(digits: string, rest: string)
    requires AllDigits(digits) && rest != "" && !IsDigit(rest[0])
    ensures DigitRun(digits + rest) == |digits|
    ensures digits != "" ==> NumberGroup(digits + rest) == Some(digits)
  {
    if digits == "" {
      assert digits + rest == rest;
    } else {
      assert (digits + rest)[0] == digits[0] && (digits + rest)[1..] == digits[1..] + rest;
      RunOf(digits[1..], rest);
      assert (digits + rest)[..|digits|] == digits;
    }
  }

  /** The method is what follows the file when that ends in the method's own lead. */
  lemma MethodFound(file: string, line: nat, methodName: string, rest: string)
    requires '\'' !in file && '\'' !in methodName && file != "" && methodName != ""
    ensures Search(METHOD, Quote("file=", Quote(file, Quote(Between(line), Quote(methodName, rest))))) ==
            Some(if EndsWith(file, "method=") then Between(line) else methodName)
  {
    NoQuoteInBetween(line);
    assert "method=" + "'" == "method='";
    ThirdText(METHOD, "method=", "file=", file, Between(line), methodName, rest);
  }

  lemma ThirdText(p: Pattern, word: string, a: string, b: string, c: string, d: string, rest: string)
    requires p == Quoted(word + "'") && word != "" && '\'' !in word
    requires '\'' !in a && '\'' !in b && '\'' !in c && '\'' !in d && b != "" && c != "" && d != "" && !EndsWith(a, word)
    ensures Search(p, Quote(a, Quote(b, Quote(c, Quote(d, rest))))) ==
            if EndsWith(b, word) then Some(c) else if EndsWith(c, word) then Some(d) else Search(p, Quote(d, rest))
  {
    FoundAfter(p, word, a, b, Quote(c, Quote(d, rest)));
    FoundAfter(p, word, b, c, Quote(d, rest));
    FoundAfter(p, word, c, d, rest);
  }

  /** The module likewise, after the file or after the method. */
  lemma ModuleFound(file: string, line: nat, methodName: string, moduleName: string, more: string)
    requires '\'' !in file && '\'' !in methodName && '\'' !in moduleName && file != "" && methodName != "" && moduleName != ""
    ensures Search(MODULE, Print(file, line, methodName, moduleName, more)) ==
            Some(if EndsWith(file, "module=") then Between(line) else if EndsWith(methodName, "module=") then " module=" else moduleName)
  {
    NoQuoteInBetween(line);
    assert "module=" + "'" == "module='";
    ThirdText(MODULE, "module=", "file=", file, Between(line), methodName, Quote(" module=", Quote(moduleName, more)));
    FoundAfter(MODULE, "module=", methodName, " module=", Quote(moduleName, more));
    FoundAfter(MODULE, "module=", " module=", moduleName, more);
    assert " module="[1..] == "module=" && EndsWith(" module=", "module=");
  }

  // ---- Round trip ----

  /**
   The file does not look like a printed line, nor do file and method end in a lead whose closing quote
   would open the field after them; or the field read by mistake happens to be the right one.
   */
  predicate Unmistakable(file: string, line: nat, methodName: string, moduleName: string) {
    && (Search(LINE, file).Some? ==> ParseDecimal(Search(LINE, file).value) == line)
    && (EndsWith(file, "method=") ==> methodName == Between(line))
    && (EndsWith(file, "module=") ==> moduleName == Between(line))
    && (EndsWith(methodName, "module=") && !EndsWith(file, "module=") ==> moduleName == " module=")
  }

  /** For plain names, printing and parsing return the frame exactly when no name is empty and none is mistakable. */
  lemma PrintedFrameRoundTrip(file: string, line: nat, methodName: string, moduleName: string, more: string)
    requires Plain(file) && Plain(methodName) && Plain(moduleName)
    ensures ParseFrame(Print(file, line, methodName, moduleName, more)) == Frame(file, line, methodName, Some(moduleName))
            <==> file != "" && methodName != "" && moduleName != "" && Unmistakable(file, line, methodName, moduleName)
  {
    if file != "" && methodName != "" && moduleName != "" {
      var afterMethod := Quote(" module=", Quote(moduleName, more));
      var afterLine := Quote(Between(line), Quote(methodName, afterMethod));
      FileFound(file, afterLine);
      LineFound(file, line, Quote(methodName, afterMethod));
      ParsePrinted(line);
      MethodFound(file, line, methodName, afterMethod);
      ModuleFound(file, line, methodName, moduleName, more);
    }
  }

  /** Names without '=' are never mistaken. */
  lemma NoEqualsNoMistake(file: string, line: nat, methodName: string, moduleName: string)
    requires '=' !in file && '=' !in methodName
    ensures Unmistakable(file, line, methodName, moduleName)
  {
    assert "line="[4] == '=' && "method="[6] == '=' && "module="[6] == '=';
    if Search(LINE, file).Some? { MatchHasLead(LINE, file); }
    if EndsWith(file, "method=") { EndIsIn(file, "method="); }
    if EndsWith(file, "module=") { EndIsIn(file, "module="); }
    if EndsWith(methodName, "module=") { EndIsIn(methodName, "module="); }
  }

  lemma EndIsIn(s: string, end: string)
    requires EndsWith(s, end) && end != "" && end[|end| - 1] == '='
    ensures '=' in s
  {
    assert s[|s| - 1] == end[|end| - 1];
  }

  lemma {:induction false} MatchHasLead(p: Pattern, s: string)
    requires Search(p, s).Some?
    ensures forall c :: c in p.lead ==> c in s
  {
    if MatchHere(p, s).Some? {
      assert forall i :: 0 <= i < |p.lead| ==> p.lead[i] == s[i];
    } else {
      MatchHasLead(p, s[1..]);
    }
  }
}
