/** extractMethodSignatures: a line-by-line heuristic that keeps type
    declarations and access-modified method headers of a Java source text.
    The three regular expressions it applies are stated as predicates on one
    trimmed line; `\b` is a boundary between an ASCII word character (letter,
    digit, `_`) and anything else, and `.` refuses line terminators. */
module Signatures {
  import opened Text
  import opened Vfs

  // ---------------------------------------------------------------------------
  // The three patterns

  predicate IsWordChar(c: char) {
    'a' <= c <= 'z' || 'A' <= c <= 'Z' || '0' <= c <= '9' || c == '_'
  }

  /** The characters java.util.regex's `.` does not match by default. */
  predicate IsLineTerminator(c: char) {
    c == '\n' || c == '\r' || c == '\U{0085}' || c == '\U{2028}' || c == '\U{2029}'
  }

  predicate NoLineTerminator(t: string) {
    forall k :: 0 <= k < |t| ==> !IsLineTerminator(t[k])
  }

  /** `\bw\b` matches `t` at index `i`, for a word `w` of word characters. */
  predicate WordAt(t: string, w: string, i: int) {
    0 <= i && i + |w| <= |t| && t[i..i + |w|] == w &&
    (i == 0 || !IsWordChar(t[i - 1])) &&
    (i + |w| == |t| || !IsWordChar(t[i + |w|]))
  }

  /** `\b(w1|w2|...)\b` matches `t` in a span ending at index `e`. */
  predicate KeywordEndsAt(t: string, words: seq<string>, e: int) {
    exists j :: 0 <= j < |words| && WordAt(t, words[j], e - |words[j]|)
  }

  const TypeKeywords: seq<string> := ["class", "interface", "enum"]
  const AccessKeywords: seq<string> := ["public", "private", "protected"]

  /** `.*\b(class|interface|enum)\b.*\{.*` matches the whole line. */
  predicate MatchesTypeWithBrace(t: string) {
    NoLineTerminator(t) &&
    exists e, b :: 0 <= e <= b < |t| && KeywordEndsAt(t, TypeKeywords, e) && t[b] == '{'
  }

  /** `.*\b(class|interface|enum)\b.*` matches the whole line. */
  predicate MatchesTypeWord(t: string) {
    NoLineTerminator(t) && exists e :: 0 <= e <= |t| && KeywordEndsAt(t, TypeKeywords, e)
  }

  /** `.*\b(public|private|protected)\b.*\(.*\).*` matches the whole line. */
  predicate MatchesMethod(t: string) {
    NoLineTerminator(t) &&
    exists e, o, c :: 0 <= e <= o < c < |t| && KeywordEndsAt(t, AccessKeywords, e) && t[o] == '(' && t[c] == ')'
  }

  predicate ContainsDoubleSlash(t: string) {
    exists k :: 0 <= k < |t| - 1 && t[k] == '/' && t[k + 1] == '/'
  }

  /** The class/interface/enum test: a type keyword as a whole word, and
      either a brace after it or no semicolon anywhere. */
  predicate IsTypeLine(t: string) {
    MatchesTypeWithBrace(t) || (MatchesTypeWord(t) && ';' !in t)
  }

  /** The method test, before `inClass` is consulted: an access keyword as a
      whole word, then a parenthesis pair, and no semicolon or comment. */
  predicate IsMethodLine(t: string) {
    MatchesMethod(t) && ';' !in t && !ContainsDoubleSlash(t)
  }

  // ---------------------------------------------------------------------------
  // What a line contributes

  /** A type line as emitted: itself, with " {" when it has no brace. */
  function TypeOut(t: string): string {
    if '{' in t then t + "\n" else t + " {" + "\n"
  }

  /** A method header without its body. */
  function MethodSig(t: string): string {
    if '{' in t then Trim(t[..IndexOf(t, '{')]) + " {}" else t + " {}"
  }

  function MethodOut(t: string): string {
    "    " + MethodSig(t) + "\n"
  }

  /** Everything one trimmed line `t` adds, given whether a type line was
      seen before it: its type line, then its method line (which this very
      line may have enabled). */
  function Emit(inClassBefore: bool, t: string): string {
    (if IsTypeLine(t) then TypeOut(t) else "") +
    (if (inClassBefore || IsTypeLine(t)) && IsMethodLine(t) then MethodOut(t) else "")
  }

  // ---------------------------------------------------------------------------
  // The scan

  datatype ScanState = ScanState(signatures: string, inClass: bool)

  /** One iteration of the loop over the lines. */
  function Step(st: ScanState, line: string): ScanState {
    var t := Trim(line);
    ScanState(st.signatures + Emit(st.inClass, t), st.inClass || IsTypeLine(t))
  }

  function Scan(lines: seq<string>): ScanState {
    if lines == [] then ScanState("", false) else Step(Scan(lines[..|lines| - 1]), lines[|lines| - 1])
  }

  /** What extractMethodSignatures returns for a text it could read. */
  function SignaturesOf(text: string): string {
    var st := Scan(SplitLines(text));
    st.signatures + (if st.inClass then "}\n" else "")
  }

  /** What extractMethodSignatures returns, the read failing or not. */
  function Extracted(content: ReadResult): string {
    match content
    case Read(text) => SignaturesOf(text)
    case ReadFailed(message) => "Error extracting methods: " + message
  }

  /** The scan after one more line is one more step. */
  lemma ScanSnoc(lines: seq<string>, i: nat)
    requires i < |lines|
    ensures Scan(lines[..i + 1]) == Step(Scan(lines[..i]), lines[i])
  {
    assert lines[..i + 1][..i] == lines[..i];
  }

  /** The body of extractMethodSignatures' loop for one line. */
  method ProcessLine(signatures: string, inClass: bool, line: string) returns (signatures': string, inClass': bool)
    ensures ScanState(signatures', inClass') == Step(ScanState(signatures, inClass), line)
  {
    var trimmedLine := Trim(line);
    signatures', inClass' := signatures, inClass;
    var typeLine := "";
    if IsTypeLine(trimmedLine) {
      var currentClass := trimmedLine;
      if '{' !in trimmedLine {
        currentClass := currentClass + " {";
      }
      typeLine := currentClass + "\n";
      inClass' := true;
    }
    var methodLine := "";
    if inClass' && IsMethodLine(trimmedLine) {
      var methodSig := trimmedLine;
      if '{' in methodSig {
        methodSig := Trim(methodSig[..IndexOf(methodSig, '{')]) + " {}";
      } else {
        methodSig := methodSig + " {}";
      }
      methodLine := "    " + methodSig + "\n";
    }
    ConcatAssoc(signatures, typeLine, methodLine);
    signatures' := signatures + typeLine + methodLine;
  }

  /** extractMethodSignatures, given the outcome of reading the file. */
  method ExtractMethodSignatures(content: ReadResult) returns (signatures: string)
    ensures signatures == Extracted(content)
  {
    if content.ReadFailed? {
      return "Error extracting methods: " + content.message;
    }
    var lines := SplitLines(content.text);
    signatures := "";
    var inClass := false;
    for i := 0 to |lines|
      invariant ScanState(signatures, inClass) == Scan(lines[..i])
    {
      ScanSnoc(lines, i);
      signatures, inClass := ProcessLine(signatures, inClass, lines[i]);
    }
    assert lines[..|lines|] == lines;
    if inClass {
      signatures := signatures + "}\n";
    }
  }

  // ---------------------------------------------------------------------------
  // Properties of the scan

  predicate SomeTypeLine(lines: seq<string>) {
    exists i :: 0 <= i < |lines| && IsTypeLine(Trim(lines[i]))
  }

  /** The output, line by line of the input: each line's emission given
      whether a type line occurs among the lines before it. */
  function Emissions(lines: seq<string>): string {
    if lines == [] then ""
    else
      var init := lines[..|lines| - 1];
      Emissions(init) + Emit(SomeTypeLine(init), Trim(lines[|lines| - 1]))
  }

  /** Dropping the last line leaves the question for the earlier ones. */
  lemma SomeTypeLineSnoc(lines: seq<string>)
    requires lines != []
    ensures SomeTypeLine(lines) <==>
      SomeTypeLine(lines[..|lines| - 1]) || IsTypeLine(Trim(lines[|lines| - 1]))
  {
    var init := lines[..|lines| - 1];
    assert forall i :: 0 <= i < |init| ==> init[i] == lines[i];
  }

  /** The scan's flag records whether a type line has been seen. */
  lemma {:induction false} ScanFlag(lines: seq<string>)
    ensures Scan(lines).inClass <==> SomeTypeLine(lines)
  {
    if lines != [] {
      ScanFlag(lines[..|lines| - 1]);
      SomeTypeLineSnoc(lines);
    }
  }

  /** The scan's text is each input line's emission, in input order. */
  lemma {:induction false} ScanIsEmissions(lines: seq<string>)
    ensures Scan(lines).signatures == Emissions(lines)
  {
    if lines != [] {
      var init := lines[..|lines| - 1];
      ScanIsEmissions(init);
      ScanFlag(init);
    }
  }

  /** Without a type line nothing at all is emitted. */
  lemma {:induction false} NoTypeLineNoOutput(lines: seq<string>)
    requires !SomeTypeLine(lines)
    ensures Emissions(lines) == ""
  {
    if lines != [] {
      var init := lines[..|lines| - 1];
      assert !SomeTypeLine(init) by {
        assert forall i :: 0 <= i < |init| ==> init[i] == lines[i];
      }
      NoTypeLineNoOutput(init);
      assert !IsTypeLine(Trim(lines[|lines| - 1]));
    }
  }

  predicate EndsWithClose(s: string) {
    |s| >= 2 && s[|s| - 2..] == "}\n"
  }

  /** A readable text yields output ending in "}\n" exactly when one of its
      lines passed the type test; otherwise it yields nothing. */
  lemma SignaturesClose(text: string)
    ensures EndsWithClose(SignaturesOf(text)) <==> SomeTypeLine(SplitLines(text))
    ensures !SomeTypeLine(SplitLines(text)) ==> SignaturesOf(text) == ""
  {
    var lines := SplitLines(text);
    ScanFlag(lines);
    ScanIsEmissions(lines);
    if !SomeTypeLine(lines) {
      NoTypeLineNoOutput(lines);
    } else {
      var s := Scan(lines).signatures;
      assert (s + "}\n")[|s + "}\n"| - 2..] == "}\n";
    }
  }

  /** The output of all lines starts with the output of the lines before
      `i`, then line `i`'s emission. */
  lemma {:induction false} EmissionsWithin(lines: seq<string>, i: nat)
    requires i < |lines|
    ensures Emissions(lines[..i]) + Emit(SomeTypeLine(lines[..i]), Trim(lines[i])) <= Emissions(lines)
    decreases |lines|
  {
    var init := lines[..|lines| - 1];
    if i == |lines| - 1 {
      assert init == lines[..i];
    } else {
      EmissionsWithin(init, i);
      assert init[..i] == lines[..i] && init[i] == lines[i];
      PrefixWithin([], Emissions(lines[..i]) + Emit(SomeTypeLine(lines[..i]), Trim(lines[i])), Emissions(init), Emissions(lines));
    }
  }

  /** A type line's emission starts with the line, then " {" exactly when
      it has no brace, then a line feed. */
  lemma TypeLineOpensEmission(inClassBefore: bool, t: string)
    requires IsTypeLine(t)
    ensures t + (if '{' in t then "" else " {") + "\n" <= Emit(inClassBefore, t)
  {
  }

  /** A line that passes the type test is emitted right after the output of
      the lines before it, as the trimmed line, then " {" exactly when it has
      no brace, then a line feed. */
  lemma TypeLineEmitted(lines: seq<string>, i: nat)
    requires i < |lines| && IsTypeLine(Trim(lines[i]))
    ensures var t := Trim(lines[i]);
      Emissions(lines[..i]) + t + (if '{' in t then "" else " {") + "\n" <= Scan(lines).signatures
  {
    var t := Trim(lines[i]);
    EmissionsWithin(lines, i);
    ScanIsEmissions(lines);
    TypeLineOpensEmission(SomeTypeLine(lines[..i]), t);
    OpeningWithin(Emissions(lines[..i]), t, if '{' in t then "" else " {", Emit(SomeTypeLine(lines[..i]), t), Scan(lines).signatures);
  }

  lemma OpeningWithin(before: string, t: string, brace: string, e: string, whole: string)
    requires t + brace + "\n" <= e && before + e <= whole
    ensures before + t + brace + "\n" <= whole
  {
    PrefixWithin(before, t + brace + "\n", e, whole);
    ConcatAssoc(before, t + brace, "\n");
    ConcatAssoc(before, t, brace);
  }

  /** A class header taken from a real Java source passes the type test. */
  lemma TypeLineExample()
    ensures IsTypeLine("public class Foo {")
  {
    var t := "public class Foo {";
    assert NoLineTerminator(t);
    assert TypeKeywords[0] == "class" && WordAt(t, "class", 7);
    assert KeywordEndsAt(t, TypeKeywords, 12);
    assert t[17] == '{';
    assert MatchesTypeWithBrace(t);
  }

  /** A method header taken from a real Java source passes the method test. */
  lemma MethodLineExample()
    ensures IsMethodLine("public void bar() {")
  {
    MethodExampleMatches();
    MethodExampleClean();
  }

  lemma MethodExampleMatches()
    ensures MatchesMethod("public void bar() {")
  {
    var t := "public void bar() {";
    assert NoLineTerminator(t);
    assert AccessKeywords[0] == "public" && WordAt(t, "public", 0);
    assert KeywordEndsAt(t, AccessKeywords, 6);
    assert t[15] == '(' && t[16] == ')';
  }

  lemma MethodExampleClean()
    ensures ';' !in "public void bar() {" && !ContainsDoubleSlash("public void bar() {")
  {
  }

  /** Every method header has the same form: the trimmed text before the
      first brace, then " {}". */
  lemma MethodSigForm(line: string)
    ensures MethodSig(Trim(line)) == Trim(Before(Trim(line), '{')) + " {}"
  {
    if '{' !in Trim(line) {
      TrimIdempotent(line);
    }
  }

  /** A line holding ';' or "//" never yields a method line, and a line yields
      one only when it or an earlier line passed the type test. */
  lemma MethodLineGuards(lines: seq<string>, i: int)
    requires 0 <= i < |lines|
    ensures var t := Trim(lines[i]);
      (';' in t || ContainsDoubleSlash(t) || !SomeTypeLine(lines[..i + 1])) ==>
        Emit(SomeTypeLine(lines[..i]), t) == (if IsTypeLine(t) then TypeOut(t) else "")
  {
    var pre := lines[..i + 1];
    assert pre[..i] == lines[..i] && pre[i] == lines[i];
    SomeTypeLineSnoc(pre);
  }

  function CountNewlines(s: string): nat {
    if s == [] then 0 else CountNewlines(s[..|s| - 1]) + (if s[|s| - 1] == '\n' then 1 else 0)
  }

  lemma {:induction false} CountNewlinesAppend(a: string, b: string)
    ensures CountNewlines(a + b) == CountNewlines(a) + CountNewlines(b)
    decreases |b|
  {
    if b == [] {
      assert a + b == a;
    } else {
      assert (a + b)[..|a + b| - 1] == a + b[..|b| - 1] && (a + b)[|a + b| - 1] == b[|b| - 1];
      CountNewlinesAppend(a, b[..|b| - 1]);
    }
  }

  lemma {:induction false} CountNewlinesNone(s: string)
    requires '\n' !in s
    ensures CountNewlines(s) == 0
    decreases |s|
  {
    if s != [] {
      CountNewlinesNone(s[..|s| - 1]);
    }
  }

  lemma TypeOutOneLine(t: string)
    requires '\n' !in t
    ensures CountNewlines(TypeOut(t)) == 1
  {
    var line := if '{' in t then t else t + " {";
    CountNewlinesNone(line);
    CountNewlinesAppend(line, "\n");
  }

  lemma MethodOutOneLine(t: string)
    requires '\n' !in t
    ensures CountNewlines(MethodOut(t)) == 1
  {
    if '{' in t {
      var p := t[..IndexOf(t, '{')];
      assert '\n' !in Trim(p);
    }
    CountNewlinesNone("    " + MethodSig(t));
    CountNewlinesAppend("    " + MethodSig(t), "\n");
  }

  /** A line without a line feed emits at most two lines. */
  lemma EmitAtMostTwoLines(b: bool, t: string)
    requires '\n' !in t
    ensures CountNewlines(Emit(b, t)) <= 2
  {
    TypeOutOneLine(t);
    MethodOutOneLine(t);
    var tp := if IsTypeLine(t) then TypeOut(t) else "";
    var mp := if (b || IsTypeLine(t)) && IsMethodLine(t) then MethodOut(t) else "";
    CountNewlinesAppend(tp, mp);
  }

  /** The output has at most two lines per input line. */
  lemma {:induction false} AtMostTwoLinesPerLine(lines: seq<string>)
    requires forall i :: 0 <= i < |lines| ==> '\n' !in lines[i]
    ensures CountNewlines(Emissions(lines)) <= 2 * |lines|
  {
    if lines != [] {
      var init := lines[..|lines| - 1];
      var t := Trim(lines[|lines| - 1]);
      AtMostTwoLinesPerLine(init);
      EmitAtMostTwoLines(SomeTypeLine(init), t);
      CountNewlinesAppend(Emissions(init), Emit(SomeTypeLine(init), t));
    }
  }
}
