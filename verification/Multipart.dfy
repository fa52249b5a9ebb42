/**
  The multipart form decoder: the body is cut at the boundary, and each part goes
  character by character through a state machine (section 4 of RFC 7578).
*/
module Multipart {
  import opened CText
  import opened Split
  import opened Wrappers

  // ----- Cutting the body at the boundary -----

  // Where d first stands in s from position i on, upper and lower case taken as one.
  function FindText(s: string, d: string, i: nat := 0): (r: Option<nat>)
    requires i <= |s|
    ensures r.Some? ==> i <= r.value && SameLetters(s, r.value, d) && forall k | i <= k < r.value :: !SameLetters(s, k, d)
    ensures r.None? ==> forall k | i <= k <= |s| :: !SameLetters(s, k, d)
    decreases |s| - i
  {
    if SameLetters(s, i, d) then Some(i) else if i == |s| then None else FindText(s, d, i + 1)
  }

  predicate Absent(s: string, d: string) {
    forall k | 0 <= k <= |s| :: !SameLetters(s, k, d)
  }

  function Parts(s: string, d: string): (r: seq<string>)
    requires d != []
    ensures |r| >= 1
    decreases |s|
  {
    match FindText(s, d)
    case None => [s]
    case Some(i) => [s[..i]] + Parts(s[i + |d|..], d)
  }

  // ----- One part -----

  const DISPOSITION := "Content-Disposition"
  const TYPE := "Content-Type"
  const NAME := " name=\""
  const FILENAME := " filename=\""

  datatype MimeType = MimeType(mainType: string, subType: string)

  // The type of a file that names none.
  const HTML := MimeType("text", "html")

  datatype Headers = Headers(key: string, fileName: string, mimeType: MimeType)

  // What stands between quotes in the value of a parameter.
  function Quoted(part: string, start: string): Option<string> {
    if |part| > |start| + 1 && part[..|start|] == start then Some(part[|start|..|part| - 1]) else None
  }

  function GetOr(o: Option<string>, default: string): string {
    if o.Some? then o.value else default
  }

  function Disposition(h: Headers, value: string): Headers {
    var parts := Pieces(value, ';');
    h.(key := if |parts| >= 2 then GetOr(Quoted(parts[1], NAME), h.key) else h.key,
       fileName := if |parts| >= 3 then GetOr(Quoted(parts[2], FILENAME), h.fileName) else h.fileName)
  }

  predicate IsBlank(c: char) {
    c == ' ' || '\t' <= c <= '\r'
  }

  function TrimLeft(s: string): string {
    if s != [] && IsBlank(s[0]) then TrimLeft(s[1..]) else s
  }

  function TrimRight(s: string): string {
    if s != [] && IsBlank(s[|s| - 1]) then TrimRight(s[..|s| - 1]) else s
  }

  // None where the constructor of MimeType throws.
  function ReadMimeType(text: string): Option<MimeType> {
    var parts := Pieces(text, '/');
    if |parts| < 2 then None else Some(MimeType(parts[0], parts[1]))
  }

  // A whole header line. None where the source throws, or reads a part that is not there.
  function HeaderLine(h: Headers, line: string): Option<Headers> {
    var parts := Pieces(line, ':');
    if parts[0] == DISPOSITION then
      if |parts| < 2 then None else Some(Disposition(h, parts[1]))
    else if parts[0] == TYPE then
      if |parts| < 2 then None
      else
        match ReadMimeType(TrimRight(TrimLeft(parts[1])))
        case None => None
        case Some(t) => Some(h.(mimeType := t))
    else Some(h)
  }

  datatype State = Undefined | Header | Rn1 | N1 | Rn2 | InContent

  datatype Machine = Machine(state: State, line: string, headers: Headers, content: string)

  const INITIAL := Machine(Undefined, "", Headers("", "", HTML), "")

  function EndLine(m: Machine, state: State): Option<Machine> {
    match HeaderLine(m.headers, m.line)
    case None => None
    case Some(h) => Some(m.(state := state, headers := h))
  }

  function Step(m: Machine, c: char): Option<Machine> {
    match m.state
    case Undefined => Some(if c == 'C' then m.(line := [c], state := Header) else m)
    case Header =>
      if c == '\r' then EndLine(m, Rn1)
      else if c == '\n' then EndLine(m, N1)
      else Some(m.(line := m.line + [c]))
    case Rn1 => Some(if c == '\n' then m.(state := N1) else m)
    case N1 =>
      Some(if c == '\r' then m.(state := Rn2)
           else if c == '\n' then m.(state := InContent)
           else if c == 'C' then m.(line := [c], state := Header)
           else m)
    case Rn2 => Some(if c == '\n' then m.(state := InContent) else m)
    case InContent => Some(m.(content := m.content + [c]))
  }

  function Run(m: Machine, text: string): Option<Machine>
    decreases |text|
  {
    if text == [] then Some(m)
    else
      match Step(m, text[0])
      case None => None
      case Some(next) => Run(next, text[1..])
  }

  // The closing line break is not part of the content. None where the source looks at the
  // last character of an empty string.
  function Stripped(content: string): Option<string> {
    if content == [] then None
    else
      var c := if content[|content| - 1] == '\n' then content[..|content| - 1] else content;
      if c == [] then None else Some(if c[|c| - 1] == '\r' then c[..|c| - 1] else c)
  }

  datatype File = File(content: string, fileName: string, mimeType: MimeType)

  datatype Form = Form(values: map<string, string>, files: map<string, File>)

  const EMPTY := Form(map[], map[])

  function Insert(form: Form, h: Headers, content: string): Form {
    if h.fileName != [] then form.(files := form.files[h.key := File(content, h.fileName, h.mimeType)])
    else form.(values := form.values[h.key := content])
  }

  function AddPart(form: Form, part: string): Option<Form> {
    match Run(INITIAL, part)
    case None => None
    case Some(m) =>
      if m.headers.key == [] then Some(form)
      else
        match Stripped(m.content)
        case None => None
        case Some(content) => Some(Insert(form, m.headers, content))
  }

  function AddParts(form: Form, parts: seq<string>): Option<Form>
    decreases |parts|
  {
    if parts == [] then Some(form)
    else
      match AddPart(form, parts[0])
      case None => None
      case Some(next) => AddParts(next, parts[1..])
  }

  function Delimiter(boundary: string): string {
    "--" + boundary
  }

  function Read(content: string, boundary: string): Option<Form> {
    AddParts(EMPTY, Parts(content, Delimiter(boundary)))
  }

  // ----- The constructor -----

  method ReadPart(part: string) returns (ok: bool, headers: Headers, fieldContent: string)
    ensures Run(INITIAL, part).Some? == ok
    ensures ok ==> var m := Run(INITIAL, part).value; headers == m.headers && fieldContent == m.content
  {
    hide HeaderLine;
    var state, line := Undefined, "";
    headers, fieldContent := Headers("", "", HTML), "";
    var i := 0;
    assert part[0..] == part;
    while i < |part|
      invariant 0 <= i <= |part|
      invariant Run(INITIAL, part) == Run(Machine(state, line, headers, fieldContent), part[i..])
    {
      var c := part[i];
      assert part[i..][1..] == part[i + 1..];
      match state {
      case Undefined =>
        if c == 'C' { line, state := [c], Header; }
      case Header =>
        if c == '\r' { state := Rn1; }
        else if c == '\n' { state := N1; }
        else { line := line + [c]; }
        if state != Header {
          match HeaderLine(headers, line)
          case None => return false, headers, fieldContent;
          case Some(h) => headers := h;
        }
      case Rn1 =>
        if c == '\n' { state := N1; }
      case N1 =>
        if c == '\r' { state := Rn2; }
        else if c == '\n' { state := InContent; }
        else if c == 'C' { line, state := [c], Header; }
      case Rn2 =>
        if c == '\n' { state := InContent; }
      case InContent =>
        fieldContent := fieldContent + [c];
      }
      i := i + 1;
    }
    ok := true;
  }

  class ParametersMap {
    var values: map<string, string>
    var files: map<string, File>

    ghost function Contents(): Form
      reads this
    {
      Form(values, files)
    }

    constructor ()
      ensures Contents() == EMPTY
    {
      values, files := map[], map[];
    }

    // The end of a part: what it holds goes into one of the maps.
    method AddField(headers: Headers, content: string) returns (ok: bool)
      requires headers.key != []
      modifies this
      ensures match Stripped(content)
              case None => !ok && Contents() == old(Contents())
              case Some(c) => ok && Contents() == Insert(old(Contents()), headers, c)
    {
      var fieldContent := content;
      if fieldContent == [] { return false; }
      if fieldContent[|fieldContent| - 1] == '\n' {
        fieldContent := fieldContent[..|fieldContent| - 1];
      }
      if fieldContent == [] { return false; }
      if fieldContent[|fieldContent| - 1] == '\r' {
        fieldContent := fieldContent[..|fieldContent| - 1];
      }
      if headers.fileName != [] {
        files := files[headers.key := File(fieldContent, headers.fileName, headers.mimeType)];
      } else {
        values := values[headers.key := fieldContent];
      }
      ok := true;
    }

    method AddPartOf(part: string) returns (ok: bool)
      modifies this
      ensures ok == AddPart(old(Contents()), part).Some?
      ensures ok ==> Contents() == AddPart(old(Contents()), part).value
    {
      hide Run, Stripped, Insert;
      var headers, fieldContent;
      ok, headers, fieldContent := ReadPart(part);
      if ok && headers.key != [] {
        ok := AddField(headers, fieldContent);
      }
    }

    // The constructor from a multipart body; on failure it throws, or is undefined.
    method ReadMultipart(content: string, boundary: string) returns (ok: bool)
      requires Contents() == EMPTY
      modifies this
      ensures ok == Read(content, boundary).Some?
      ensures ok ==> Contents() == Read(content, boundary).value
    {
      hide AddPart, Parts;
      var delimiter := "--" + boundary;
      var rest, done := content, false;
      while !done
        invariant Read(content, boundary) ==
                  if done then Some(Contents()) else AddParts(Contents(), Parts(rest, delimiter))
        decreases !done, |rest|
      {
        var part := rest;
        PartsStep(Contents(), rest, delimiter);
        match FindText(rest, delimiter) {
        case None =>
          done := true;
        case Some(i) =>
          part, rest := rest[..i], rest[i + |delimiter|..];
        }
        var added := AddPartOf(part);
        if !added { return false; }
      }
      ok := true;
    }
  }

  lemma PartsStep(form: Form, s: string, d: string)
    requires d != []
    ensures AddParts(form, Parts(s, d)) ==
            match FindText(s, d)
            case None => AddPart(form, s)
            case Some(i) =>
              match AddPart(form, s[..i])
              case None => None
              case Some(next) => AddParts(next, Parts(s[i + |d|..], d))
  {
    hide AddPart;
  }
}
