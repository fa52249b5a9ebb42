/** Well-formed bodies (section 4 of RFC 7578), and what the decoder recovers from them. */
module MultipartBody {
  import opened CText
  import opened Multipart
  import opened Split
  import opened Wrappers

  // A field as a client writes it; a field with a file name is a file.
  datatype Field = Field(name: string, fileName: string, mimeType: Option<MimeType>, content: string)

  const CRLF := "\r\n"
  const FORM_DATA := " form-data"

  function Parameter(start: string, value: string): string {
    start + value + "\""
  }

  function DispositionValue(f: Field): string {
    var name, file := Parameter(NAME, f.name), Parameter(FILENAME, f.fileName);
    FORM_DATA + ";" + if f.fileName == [] then name else name + ";" + file
  }

  function DispositionLine(f: Field): string {
    DISPOSITION + ":" + DispositionValue(f)
  }

  function TypeText(t: MimeType): string {
    t.mainType + "/" + t.subType
  }

  function TypeLine(t: MimeType): string {
    TYPE + ":" + (" " + TypeText(t))
  }

  function HeaderBlock(f: Field): string {
    DispositionLine(f) + CRLF + if f.mimeType.Some? then TypeLine(f.mimeType.value) + CRLF else ""
  }

  function PartText(f: Field): string {
    CRLF + HeaderBlock(f) + CRLF + f.content + CRLF
  }

  const CLOSING := "--\r\n"

  // What follows the first delimiter.
  function Tail(fields: seq<Field>, boundary: string): string {
    if fields == [] then CLOSING else PartText(fields[0]) + Delimiter(boundary) + Tail(fields[1..], boundary)
  }

  function Body(fields: seq<Field>, boundary: string): string {
    Delimiter(boundary) + Tail(fields, boundary)
  }

  // ----- What a field must be free of -----

  predicate Plain(s: string) {
    forall k | 0 <= k < |s| :: s[k] != ':' && s[k] != ';' && s[k] != '\r' && s[k] != '\n'
  }

  predicate PlainType(t: MimeType) {
    && Plain(t.mainType) && Plain(t.subType) && '/' !in t.mainType && '/' !in t.subType
    && (t.mainType != [] ==> !IsBlank(t.mainType[0]))
    && (t.subType != [] ==> !IsBlank(t.subType[|t.subType| - 1]))
  }

  predicate WellFormed(f: Field, boundary: string) {
    && f.name != [] && Plain(f.name) && Plain(f.fileName)
    && (f.mimeType.Some? ==> PlainType(f.mimeType.value))
    && Absent(PartText(f), Delimiter(boundary))
  }

  predicate GoodBoundary(boundary: string) {
    boundary != [] && '\r' !in boundary && '\n' !in boundary
  }

  // ----- Cutting the body -----

  lemma FirstFound(s: string, d: string, i: nat)
    requires SameLetters(s, i, d) && forall k | 0 <= k < i :: !SameLetters(s, k, d)
    ensures FindText(s, d) == Some(i)
  {
  }

  lemma SameLettersSelf(a: string, d: string, b: string)
    ensures SameLetters(a + d + b, |a|, d)
  {
  }

  lemma OccurrenceInPrefix(a: string, b: string, d: string, k: nat)
    ensures SameLetters(a + b, k, d) && k + |d| <= |a| ==> SameLetters(a, k, d)
  {
    if SameLetters(a + b, k, d) && k + |d| <= |a| {
      forall j | 0 <= j < |d| ensures Lower(a[k + j]) == Lower(d[j]) { assert (a + b)[k + j] == a[k + j]; }
    }
  }

  lemma OccurrenceCovers(s: string, d: string, k: nat, n: nat)
    requires k <= n < k + |d| && n < |s| && s[n] == '\n'
    ensures SameLetters(s, k, d) ==> '\n' in d
  {
    var j := n - k;
    assert SameLetters(s, k, d) ==> Lower(s[k + j]) == Lower(d[j]);
    assert Lower(d[j]) == '\n' ==> d[j] == '\n';
  }

  // No occurrence of d reaches over the end of a, if a ends with a character foreign to d.
  lemma NoEarlierOccurrence(a: string, d: string, b: string, k: nat)
    requires k < |a| && Absent(a, d) && a[|a| - 1] == '\n' && '\n' !in d
    ensures !SameLetters(a + d + b, k, d)
  {
    hide SameLetters;
    assert a + d + b == a + (d + b);
    if k + |d| <= |a| {
      OccurrenceInPrefix(a, d + b, d, k);
    } else {
      OccurrenceCovers(a + d + b, d, k, |a| - 1);
    }
  }

  lemma PartsAfter(a: string, d: string, b: string)
    requires d != [] && '\n' !in d
    requires a == [] || (a[|a| - 1] == '\n' && Absent(a, d))
    ensures Parts(a + d + b, d) == [a] + Parts(b, d)
  {
    var s := a + d + b;
    SameLettersSelf(a, d, b);
    forall k | 0 <= k < |a| ensures !SameLetters(s, k, d) { NoEarlierOccurrence(a, d, b, k); }
    FirstFound(s, d, |a|);
    assert s[..|a|] == a && s[|a| + |d|..] == b;
  }

  lemma ClosingIsOnePart(boundary: string)
    requires GoodBoundary(boundary)
    ensures Parts(CLOSING, Delimiter(boundary)) == [CLOSING]
  {
    var d := Delimiter(boundary);
    assert d[0] == '-' && d[1] == '-' && d[2] == boundary[0];
    assert !SameLetters(CLOSING, 0, d);
    assert FindText(CLOSING, d, 4) == None && FindText(CLOSING, d, 3) == None;
    assert FindText(CLOSING, d, 2) == None && FindText(CLOSING, d, 1) == None;
  }

  function PartTexts(fields: seq<Field>): seq<string> {
    if fields == [] then [CLOSING] else [PartText(fields[0])] + PartTexts(fields[1..])
  }

  lemma PartTextEnds(f: Field)
    ensures PartText(f) != [] && PartText(f)[|PartText(f)| - 1] == '\n'
  {
  }

  lemma {:induction false} PartsOfTail(fields: seq<Field>, boundary: string)
    requires GoodBoundary(boundary) && forall i | 0 <= i < |fields| :: WellFormed(fields[i], boundary)
    ensures Parts(Tail(fields, boundary), Delimiter(boundary)) == PartTexts(fields)
  {
    hide PartText;
    if fields == [] {
      ClosingIsOnePart(boundary);
    } else {
      PartsOfTail(fields[1..], boundary);
      PartTextEnds(fields[0]);
      PartsAfter(PartText(fields[0]), Delimiter(boundary), Tail(fields[1..], boundary));
    }
  }

  lemma PartsAtStart(d: string, b: string)
    requires d != [] && '\n' !in d
    ensures Parts(d + b, d) == [[]] + Parts(b, d)
  {
    hide Parts;
    PartsAfter([], d, b);
    assert [] + d + b == d + b;
  }

  lemma PartsOfBody(fields: seq<Field>, boundary: string)
    requires GoodBoundary(boundary) && forall i | 0 <= i < |fields| :: WellFormed(fields[i], boundary)
    ensures Parts(Body(fields, boundary), Delimiter(boundary)) == [[]] + PartTexts(fields)
  {
    hide WellFormed, Tail, Parts, PartTexts, Delimiter;
    PartsOfTail(fields, boundary);
    DelimiterIsGood(boundary);
    PartsAtStart(Delimiter(boundary), Tail(fields, boundary));
  }

  lemma DelimiterIsGood(boundary: string)
    requires GoodBoundary(boundary)
    ensures Delimiter(boundary) != [] && '\n' !in Delimiter(boundary)
  {
  }

  // ----- Running over one part -----

  function Then(o: Option<Machine>, text: string): Option<Machine> {
    if o.Some? then Run(o.value, text) else None
  }

  lemma {:induction false} RunConcat(m: Machine, a: string, b: string)
    ensures Run(m, a + b) == Then(Run(m, a), b)
    decreases |a|
  {
    hide Step;
    if a == [] {
      assert a + b == b;
    } else {
      assert (a + b)[1..] == a[1..] + b;
      if Step(m, a[0]).Some? { RunConcat(Step(m, a[0]).value, a[1..], b); }
    }
  }

  lemma {:induction false} RunLine(m: Machine, text: string)
    requires m.state == Header && '\r' !in text && '\n' !in text
    ensures Run(m, text) == Some(m.(line := m.line + text))
    decreases |text|
  {
    if text == [] {
      assert m.line + [] == m.line;
    } else {
      RunLine(m.(line := m.line + [text[0]]), text[1..]);
      assert m.line + [text[0]] + text[1..] == m.line + text;
    }
  }

  lemma {:induction false} RunContent(m: Machine, text: string)
    requires m.state == InContent
    ensures Run(m, text) == Some(m.(content := m.content + text))
    decreases |text|
  {
    if text == [] {
      assert m.content + [] == m.content;
    } else {
      RunContent(m.(content := m.content + [text[0]]), text[1..]);
      assert m.content + [text[0]] + text[1..] == m.content + text;
    }
  }

  lemma RunOne(m: Machine, c: char)
    ensures Run(m, [c]) == Step(m, c)
  {
    assert [c][1..] == [];
    if Step(m, c).Some? { assert Run(Step(m, c).value, []) == Step(m, c); }
  }

  lemma RunTwo(m: Machine, c: char, d: char)
    ensures Run(m, [c, d]) == match Step(m, c) case None => None case Some(n) => Step(n, d)
  {
    hide Step;
    assert [c, d][1..] == [d];
    if Step(m, c).Some? { RunOne(Step(m, c).value, d); }
  }

  // A whole header line, with its line break.
  lemma RunHeader(m: Machine, line: string, h: Headers)
    requires m.state == Undefined || m.state == N1
    requires line != [] && line[0] == 'C' && OneLine(line)
    requires HeaderLine(m.headers, line) == Some(h)
    ensures Run(m, line + CRLF) == Some(Machine(N1, line, h, m.content))
  {
    hide HeaderLine;
    var n := m.(line := [line[0]], state := Header);
    assert Run(m, line) == Run(n, line[1..]);
    RunLine(n, line[1..]);
    assert [line[0]] + line[1..] == line;
    RunConcat(m, line, CRLF);
    RunTwo(n.(line := line), '\r', '\n');
  }

  // ----- The header lines -----

  predicate OneLine(s: string) {
    '\r' !in s && '\n' !in s
  }

  lemma PlainMeans(s: string)
    requires Plain(s)
    ensures ':' !in s && ';' !in s && OneLine(s)
  {
  }

  lemma PlainSum(a: string, b: string)
    ensures Plain(a) && Plain(b) ==> Plain(a + b)
    ensures OneLine(a) && OneLine(b) ==> OneLine(a + b)
    ensures ':' !in a && ':' !in b ==> ':' !in a + b
    ensures a != [] && a[0] == 'C' ==> (a + b)[0] == 'C'
  {
  }

  lemma PiecesTwo(a: string, b: string, c: char)
    requires c !in a && c !in b
    ensures Pieces(a + [c] + b, c) == [a, b]
  {
    PiecesCons(a, b, c);
    PiecesOne(b, c);
  }

  lemma PiecesThree(a: string, b: string, d: string, c: char)
    requires c !in a && c !in b && c !in d
    ensures Pieces(a + [c] + (b + [c] + d), c) == [a, b, d]
  {
    PiecesCons(a, b + [c] + d, c);
    PiecesTwo(b, d, c);
  }

  lemma QuotedParameter(start: string, value: string)
    ensures Quoted(Parameter(start, value), start) == if value == [] then None else Some(value)
  {
    var p := Parameter(start, value);
    assert p[..|start|] == start && p[|start|..|p| - 1] == value;
  }

  lemma ConstantsArePlain()
    ensures Plain(DISPOSITION) && Plain(TYPE) && Plain(FORM_DATA) && Plain(NAME) && Plain(FILENAME)
    ensures DISPOSITION[0] == 'C' && TYPE[0] == 'C' && DISPOSITION != TYPE
  {
  }

  lemma ParametersArePlain(f: Field)
    requires Plain(f.name) && Plain(f.fileName)
    ensures Plain(Parameter(NAME, f.name)) && Plain(Parameter(FILENAME, f.fileName))
  {
    ConstantsArePlain();
    ParameterIsPlain(NAME, f.name);
    ParameterIsPlain(FILENAME, f.fileName);
  }

  lemma ParameterIsPlain(start: string, value: string)
    requires Plain(start) && Plain(value)
    ensures Plain(Parameter(start, value))
  {
  }

  lemma DispositionParts(f: Field)
    requires Plain(f.name) && Plain(f.fileName)
    ensures var name, file := Parameter(NAME, f.name), Parameter(FILENAME, f.fileName);
            Pieces(DispositionValue(f), ';') ==
            if f.fileName == [] then [FORM_DATA, name] else [FORM_DATA, name, file]
  {
    hide Parameter, Pieces, Plain;
    var name, file := Parameter(NAME, f.name), Parameter(FILENAME, f.fileName);
    ConstantsArePlain();
    ParametersArePlain(f);
    PlainMeans(FORM_DATA);
    PlainMeans(name);
    PlainMeans(file);
    if f.fileName == [] {
      PiecesTwo(FORM_DATA, name, ';');
    } else {
      PiecesThree(FORM_DATA, name, file, ';');
    }
  }

  // The value has no colon, and the line no line break.
  lemma DispositionIsFree(f: Field)
    requires Plain(f.name) && Plain(f.fileName)
    ensures ':' !in DispositionValue(f) && OneLine(DispositionLine(f))
    ensures DispositionLine(f) != [] && DispositionLine(f)[0] == 'C'
  {
    hide Parameter, Plain;
    var name, file := Parameter(NAME, f.name), Parameter(FILENAME, f.fileName);
    ConstantsArePlain();
    ParametersArePlain(f);
    PlainMeans(FORM_DATA);
    PlainMeans(DISPOSITION);
    PlainMeans(name);
    PlainMeans(file);
    PlainSum(FORM_DATA, ";");
    PlainSum(name, ";");
    PlainSum(name + ";", file);
    PlainSum(FORM_DATA + ";", if f.fileName == [] then name else name + ";" + file);
    PlainSum(DISPOSITION, ":");
    PlainSum(DISPOSITION + ":", DispositionValue(f));
  }

  lemma DispositionRead(h: Headers, f: Field)
    requires f.name != [] && Plain(f.name) && Plain(f.fileName)
    ensures HeaderLine(h, DispositionLine(f)) ==
            Some(h.(key := f.name, fileName := if f.fileName == [] then h.fileName else f.fileName))
  {
    hide Quoted, Parameter, Plain, DispositionValue, Pieces;
    ConstantsArePlain();
    PlainMeans(DISPOSITION);
    DispositionIsFree(f);
    PiecesTwo(DISPOSITION, DispositionValue(f), ':');
    DispositionParts(f);
    QuotedParameter(NAME, f.name);
    QuotedParameter(FILENAME, f.fileName);
  }

  lemma TrimKeeps(t: MimeType)
    requires PlainType(t)
    ensures TrimRight(TrimLeft(" " + TypeText(t))) == TypeText(t)
    ensures Pieces(TypeText(t), '/') == [t.mainType, t.subType]
  {
    var text := TypeText(t);
    assert (" " + text)[1..] == text;
    assert TrimLeft(text) == text && TrimRight(text) == text;
    PiecesTwo(t.mainType, t.subType, '/');
  }

  lemma TypeIsFree(t: MimeType)
    requires PlainType(t)
    ensures ':' !in " " + TypeText(t) && OneLine(TypeLine(t)) && TypeLine(t) != [] && TypeLine(t)[0] == 'C'
  {
    hide Plain;
    ConstantsArePlain();
    PlainMeans(TYPE);
    PlainMeans(t.mainType);
    PlainMeans(t.subType);
    PlainSum(t.mainType, "/");
    PlainSum(t.mainType + "/", t.subType);
    PlainSum(" ", TypeText(t));
    PlainSum(TYPE, ":");
    PlainSum(TYPE + ":", " " + TypeText(t));
  }

  lemma TypeRead(h: Headers, t: MimeType)
    requires PlainType(t)
    ensures HeaderLine(h, TypeLine(t)) == Some(h.(mimeType := t))
  {
    hide Plain, PlainType, TypeText, Pieces, TrimLeft, TrimRight, Disposition;
    ConstantsArePlain();
    PlainMeans(TYPE);
    TypeIsFree(t);
    PiecesTwo(TYPE, " " + TypeText(t), ':');
    TrimKeeps(t);
  }

  // ----- One part comes back -----

  function HeadersOf(f: Field): Headers {
    Headers(f.name, f.fileName, if f.mimeType.Some? then f.mimeType.value else HTML)
  }

  lemma RunHeaders(f: Field)
    requires f.name != [] && Plain(f.name) && Plain(f.fileName)
    requires f.mimeType.Some? ==> PlainType(f.mimeType.value)
    ensures var m := Run(INITIAL, HeaderBlock(f));
            m.Some? && m.value.state == N1 && m.value.headers == HeadersOf(f) && m.value.content == ""
  {
    hide HeaderLine, DispositionLine, TypeLine, Run;
    var line := DispositionLine(f);
    DispositionIsFree(f);
    DispositionRead(INITIAL.headers, f);
    var h := INITIAL.headers.(key := f.name, fileName := f.fileName);
    RunHeader(INITIAL, line, h);
    if f.mimeType.Some? {
      var t := f.mimeType.value;
      TypeRead(h, t);
      TypeIsFree(t);
      RunHeader(Machine(N1, line, h, ""), TypeLine(t), h.(mimeType := t));
      RunConcat(INITIAL, line + CRLF, TypeLine(t) + CRLF);
    } else {
      assert line + CRLF + "" == line + CRLF;
    }
  }

  lemma RunPart(f: Field)
    requires f.name != [] && Plain(f.name) && Plain(f.fileName)
    requires f.mimeType.Some? ==> PlainType(f.mimeType.value)
    ensures var m := Run(INITIAL, PartText(f));
            m.Some? && m.value.headers == HeadersOf(f) && m.value.content == f.content + CRLF
  {
    hide HeaderBlock, Run, HeadersOf;
    var block := HeaderBlock(f);
    RunTwo(INITIAL, '\r', '\n');
    RunHeaders(f);
    var m := Run(INITIAL, block).value;
    RunTwo(m, '\r', '\n');
    RunContent(m.(state := InContent), f.content + CRLF);
    RunConcat(INITIAL, CRLF, block);
    RunConcat(INITIAL, CRLF + block, CRLF);
    RunConcat(INITIAL, CRLF + block + CRLF, f.content + CRLF);
    assert PartText(f) == CRLF + block + CRLF + (f.content + CRLF);
    assert "" + (f.content + CRLF) == f.content + CRLF;
  }

  lemma StripCrlf(content: string)
    ensures Stripped(content + CRLF) == Some(content)
  {
    var c := content + CRLF;
    assert c[..|c| - 1] == content + ['\r'];
    assert (content + ['\r'])[..|content|] == content;
  }

  lemma PartComesBack(form: Form, f: Field)
    requires f.name != [] && Plain(f.name) && Plain(f.fileName)
    requires f.mimeType.Some? ==> PlainType(f.mimeType.value)
    ensures AddPart(form, PartText(f)) == Some(Insert(form, HeadersOf(f), f.content))
  {
    hide Run, PartText, Stripped, Insert;
    RunPart(f);
    StripCrlf(f.content);
  }

  // ----- The whole body comes back -----

  // The fields, put one after the other into a form.
  function Inserted(form: Form, fields: seq<Field>): Form
    decreases |fields|
  {
    if fields == [] then form else Inserted(Insert(form, HeadersOf(fields[0]), fields[0].content), fields[1..])
  }

  lemma NoFieldIn(form: Form)
    ensures AddPart(form, "") == Some(form) && AddPart(form, CLOSING) == Some(form)
  {
    assert Run(INITIAL, "") == Some(INITIAL);
    RunTwo(INITIAL, '-', '-');
    RunTwo(INITIAL, '\r', '\n');
    RunConcat(INITIAL, "--", CRLF);
    assert "--" + CRLF == CLOSING;
  }

  lemma {:induction false} AddPartTexts(form: Form, fields: seq<Field>, boundary: string)
    requires forall i | 0 <= i < |fields| :: WellFormed(fields[i], boundary)
    ensures AddParts(form, PartTexts(fields)) == Some(Inserted(form, fields))
    decreases |fields|
  {
    hide AddPart, PartText, Insert, HeadersOf;
    if fields == [] {
      NoFieldIn(form);
      assert AddParts(form, [CLOSING][1..]) == Some(form);
    } else {
      PartComesBack(form, fields[0]);
      AddPartTexts(Insert(form, HeadersOf(fields[0]), fields[0].content), fields[1..], boundary);
      assert PartTexts(fields)[1..] == PartTexts(fields[1..]);
    }
  }

  lemma BodyComesBack(fields: seq<Field>, boundary: string)
    requires GoodBoundary(boundary) && forall i | 0 <= i < |fields| :: WellFormed(fields[i], boundary)
    ensures Read(Body(fields, boundary), boundary) == Some(Inserted(EMPTY, fields))
  {
    hide WellFormed, AddPart, Parts, PartTexts, Body;
    PartsOfBody(fields, boundary);
    AddPartTexts(EMPTY, fields, boundary);
    NoFieldIn(EMPTY);
    assert ([[]] + PartTexts(fields))[1..] == PartTexts(fields);
  }

  // ----- Every field can be found in the form -----

  predicate SameSlot(f: Field, g: Field) {
    f.name == g.name && (f.fileName == [] <==> g.fileName == [])
  }

  predicate Holds(form: Form, f: Field) {
    if f.fileName == [] then f.name in form.values && form.values[f.name] == f.content
    else f.name in form.files && form.files[f.name] == File(f.content, f.fileName, HeadersOf(f).mimeType)
  }

  // A field is there, unless a later one of the same kind took its name.
  lemma {:induction false} LastOfNameStays(form: Form, fields: seq<Field>, i: nat)
    requires i < |fields| && forall j | i < j < |fields| :: !SameSlot(fields[i], fields[j])
    ensures Holds(Inserted(form, fields), fields[i])
    decreases |fields|
  {
    var next := Insert(form, HeadersOf(fields[0]), fields[0].content);
    if i > 0 {
      LastOfNameStays(next, fields[1..], i - 1);
    } else {
      StaysHeld(next, fields[1..], fields[0]);
    }
  }

  lemma {:induction false} StaysHeld(form: Form, fields: seq<Field>, f: Field)
    requires Holds(form, f) && forall j | 0 <= j < |fields| :: !SameSlot(f, fields[j])
    ensures Holds(Inserted(form, fields), f)
    decreases |fields|
  {
    if fields != [] {
      StaysHeld(Insert(form, HeadersOf(fields[0]), fields[0].content), fields[1..], f);
    }
  }

  lemma FieldComesBack(fields: seq<Field>, boundary: string, i: nat)
    requires GoodBoundary(boundary) && forall k | 0 <= k < |fields| :: WellFormed(fields[k], boundary)
    requires i < |fields| && forall j | i < j < |fields| :: !SameSlot(fields[i], fields[j])
    ensures var form := Read(Body(fields, boundary), boundary);
            form.Some? && Holds(form.value, fields[i])
  {
    hide WellFormed, Read, Body;
    BodyComesBack(fields, boundary);
    LastOfNameStays(EMPTY, fields, i);
  }

  // ----- Which names can come back -----

  predicate HeadersPlain(h: Headers) {
    Plain(h.key) && Plain(h.fileName)
  }

  lemma {:induction false} PiecesInside(s: string, c: char)
    ensures forall k | 0 <= k < |Pieces(s, c)| :: forall x <- Pieces(s, c)[k] :: x in s
    decreases |s|
  {
    var i := Find(s, c);
    if i < |s| { PiecesInside(s[i + 1..], c); }
  }

  lemma PieceIsPlain(line: string, value: string, part: string)
    requires OneLine(line) && value in Pieces(line, ':') && part in Pieces(value, ';')
    ensures Plain(part)
  {
    PiecesAreFree(line, ':');
    PiecesInside(line, ':');
    PiecesAreFree(value, ';');
    PiecesInside(value, ';');
    forall k | 0 <= k < |part|
      ensures part[k] != ':' && part[k] != ';' && part[k] != '\r' && part[k] != '\n'
    {
      assert part[k] in value && part[k] in line;
    }
  }

  lemma QuotedIsPlain(part: string, start: string)
    requires Plain(part)
    ensures Quoted(part, start).Some? ==> Plain(Quoted(part, start).value)
  {
  }

  lemma HeaderLinePlain(h: Headers, line: string)
    requires HeadersPlain(h) && OneLine(line) && HeaderLine(h, line).Some?
    ensures HeadersPlain(HeaderLine(h, line).value)
  {
    hide Quoted, Pieces, Plain, OneLine;
    var parts := Pieces(line, ':');
    if |parts| >= 2 {
      var value := Pieces(parts[1], ';');
      if |value| >= 2 {
        PieceIsPlain(line, parts[1], value[1]);
        QuotedIsPlain(value[1], NAME);
      }
      if |value| >= 3 {
        PieceIsPlain(line, parts[1], value[2]);
        QuotedIsPlain(value[2], FILENAME);
      }
    }
  }

  lemma {:induction false} RunPlain(m: Machine, text: string)
    requires HeadersPlain(m.headers) && OneLine(m.line)
    ensures Run(m, text).Some? ==> HeadersPlain(Run(m, text).value.headers)
    decreases |text|
  {
    hide HeaderLine, HeadersPlain;
    if text != [] && Step(m, text[0]).Some? {
      if HeaderLine(m.headers, m.line).Some? { HeaderLinePlain(m.headers, m.line); }
      RunPlain(Step(m, text[0]).value, text[1..]);
    }
  }

  predicate FormPlain(form: Form) {
    && (forall k <- form.values :: k != [] && Plain(k))
    && (forall k <- form.files :: k != [] && Plain(k) && Plain(form.files[k].fileName))
  }

  lemma {:induction false} FormIsPlain(form: Form, parts: seq<string>)
    requires FormPlain(form)
    ensures AddParts(form, parts).Some? ==> FormPlain(AddParts(form, parts).value)
    decreases |parts|
  {
    assert Plain("");
    hide Plain, Run, Stripped;
    if parts != [] && AddPart(form, parts[0]).Some? {
      RunPlain(INITIAL, parts[0]);
      FormIsPlain(AddPart(form, parts[0]).value, parts[1..]);
    }
  }

  // One field comes back exactly when it has a name, and its names are free of the
  // separators of a header.
  lemma FieldComesBackIff(f: Field, boundary: string)
    requires GoodBoundary(boundary) && Absent(PartText(f), Delimiter(boundary))
    requires f.mimeType.Some? ==> PlainType(f.mimeType.value)
    ensures Read(Body([f], boundary), boundary) == Some(Inserted(EMPTY, [f]))
            <==> f.name != [] && Plain(f.name) && Plain(f.fileName)
  {
    assert Plain("");
    hide Plain, PlainType, PartText, Parts, AddParts, Body;
    if f.name != [] && Plain(f.name) && Plain(f.fileName) {
      BodyComesBack([f], boundary);
    }
    FormIsPlain(EMPTY, Parts(Body([f], boundary), Delimiter(boundary)));
    assert Holds(Inserted(EMPTY, [f]), f) by { LastOfNameStays(EMPTY, [f], 0); }
  }
}
