/** Loading and dumping an INI file (iniparser.cpp), with the comment sign `#` and the delimiter `=`. */
module Ini {

  import opened Collections

  // ------------------------------------------------------------ strings (hstring.cpp)

  predicate IsSpace(c: char) { c == ' ' || c == '\t' || c == '\r' || c == '\n' }

  function Ltrim(s: string): (t: string)
    ensures |t| <= |s| && t == s[|s| - |t|..]
    ensures t != "" ==> !IsSpace(t[0])
  {
    if s == "" || !IsSpace(s[0]) then s else Ltrim(s[1..])
  }

  function Rtrim(s: string): (t: string)
    ensures t <= s
    ensures t != "" ==> !IsSpace(t[|t| - 1])
  {
    if s == "" || !IsSpace(s[|s| - 1]) then s else Rtrim(s[..|s| - 1])
  }

  function Trim(s: string): string { Rtrim(Ltrim(s)) }

  /** `find_first_of` for one character; the length when there is none. */
  function Find(s: string, c: char): (i: nat)
    ensures i <= |s| && (i < |s| ==> s[i] == c) && forall j | 0 <= j < i :: s[j] != c
  {
    if s == "" || s[0] == c then 0 else 1 + Find(s[1..], c)
  }

  /** No space at either end. */
  predicate Trimmed(s: string) { s != "" ==> !IsSpace(s[0]) && !IsSpace(s[|s| - 1]) }

  predicate Spaces(s: string) { forall c | c in s :: IsSpace(c) }

  lemma TrimIsTrimmed(s: string)
    ensures Trimmed(Trim(s)) && forall c | c in Trim(s) :: c in s
  {
  }

  lemma {:induction false} LtrimSpaces(w: string, s: string)
    requires Spaces(w)
    ensures Ltrim(w + s) == Ltrim(s)
  {
    if w == "" {
      assert w + s == s;
    } else {
      assert (w + s)[1..] == w[1..] + s;
      LtrimSpaces(w[1..], s);
    }
  }

  lemma {:induction false} RtrimSpaces(s: string, w: string)
    requires Spaces(w)
    ensures Rtrim(s + w) == Rtrim(s)
  {
    if w == "" {
      assert s + w == s;
    } else {
      assert (s + w)[..|s + w| - 1] == s + w[..|w| - 1];
      RtrimSpaces(s, w[..|w| - 1]);
    }
  }

  lemma {:induction false} FindBehind(a: string, b: string, c: char)
    requires c !in a
    ensures Find(a + b, c) == |a| + Find(b, c)
  {
    if a == "" {
      assert a + b == b;
    } else {
      assert (a + b)[1..] == a[1..] + b;
      FindBehind(a[1..], b, c);
    }
  }

  /** Trimming a trimmed string with spaces around it gives the string. */
  lemma TrimAround(w: string, s: string, v: string)
    requires Spaces(w) && Spaces(v) && Trimmed(s)
    ensures Trim(w + s + v) == s
  {
    hide Ltrim, Rtrim;
    assert w + s + v == w + (s + v);
    LtrimSpaces(w, s + v);
    if s == "" {
      assert s + v == v && v + "" == v;
      LtrimSpaces(v, "");
      NothingToTrim("");
    } else {
      assert (s + v)[0] == s[0];
      NothingToTrim(s + v);
      RtrimSpaces(s, v);
      NothingToTrim(s);
    }
  }

  lemma NothingToTrim(s: string)
    ensures s == "" || !IsSpace(s[0]) ==> Ltrim(s) == s
    ensures s == "" || !IsSpace(s[|s| - 1]) ==> Rtrim(s) == s
  {
  }

  // ------------------------------------------------------------ lines

  /** What a line is: a malformed one is ignored. A comment is "" or begins with `#`. */
  datatype Line =
    | Blank
    | Remark(raw: string)
    | Malformed
    | Head(name: string, comment: string)
    | Pair(key: string, value: string, comment: string)

  /** The body of the loop of LoadFromMem up to what it finds in the line. */
  function Classify(line: string): Line {
    var text := Ltrim(line);
    if text == "" then Blank
    else
      var pos := Find(text, '#');
      var comment, content := text[pos..], Rtrim(text[..pos]);
      if content == "" then Remark(line) else Entry(content, comment)
  }

  function Entry(content: string, comment: string): (l: Line)
    requires content != ""
    ensures l.Malformed? || l.Head? || l.Pair?
  {
    if content[0] == '[' then
      if content[|content| - 1] == ']' then Head(Trim(content[1..|content| - 1]), comment) else Malformed
    else
      var pos := Find(content, '=');
      if pos < |content| then Pair(Trim(content[..pos]), Trim(content[pos + 1..]), comment) else Malformed
  }

  /** `std::getline` until the end of the text. */
  function Lines(text: string): (ls: seq<string>)
    ensures forall l | l in ls :: '\n' !in l
    decreases |text|
  {
    if text == "" then []
    else
      var i := Find(text, '\n');
      [text[..i]] + if i < |text| then Lines(text[i + 1..]) else []
  }

  function Unlines(ls: seq<string>): string { if ls == [] then "" else ls[0] + "\n" + Unlines(ls[1..]) }

  lemma OneLineMore(l: string, ls: seq<string>)
    ensures Unlines([l] + ls) == l + "\n" + Unlines(ls) && Unlines([]) == ""
  {
    assert ([l] + ls)[1..] == ls;
  }

  predicate Ended(text: string) { text == "" || text[|text| - 1] == '\n' }

  /** The lines are the text cut at each newline; one at the end is not missed. */
  lemma {:induction false} LinesBack(text: string)
    ensures Unlines(Lines(text)) == if Ended(text) then text else text + "\n"
    decreases |text|
  {
    if text != "" {
      hide *;
      var i := Find(text, '\n');
      var rest := if i < |text| then text[i + 1..] else "";
      LineFirst(text, i, rest);
      LinesBack(rest);
      OneLineMore(text[..i], Lines(rest));
      LineEnd(text, i, rest);
    }
  }

  lemma LineFirst(text: string, i: nat, rest: string)
    requires text != "" && i == Find(text, '\n') && rest == if i < |text| then text[i + 1..] else ""
    ensures Lines(text) == [text[..i]] + Lines(rest)
  {
  }

  lemma LineEnd(text: string, i: nat, rest: string)
    requires text != "" && i == Find(text, '\n') && rest == if i < |text| then text[i + 1..] else ""
    ensures text[..i] + "\n" + (if Ended(rest) then rest else rest + "\n") == if Ended(text) then text else text + "\n"
  {
    if i < |text| {
      CutAtNewLine(text, i);
      hide Find;
      if !Ended(rest) { Quadruple(text[..i], "\n", rest, "\n"); }
    } else {
      assert text[..i] == text && text + "\n" + "" == text + "\n";
    }
  }

  lemma CutAtNewLine(s: string, i: nat)
    requires i < |s| && s[i] == '\n'
    ensures s == s[..i] + "\n" + s[i + 1..]
  {
  }

  lemma Quadruple(a: string, b: string, c: string, d: string)
    ensures a + b + (c + d) == a + b + c + d
  {
  }

  /** The same line as DumpString writes it. */
  function Canon(l: Line): string {
    match l
    case Blank => ""
    case Remark(raw) => raw
    case Malformed => ""
    case Head(name, comment) => "[" + name + "]" + Tail(comment)
    case Pair(key, value, comment) => key + " = " + value + Tail(comment)
  }

  function Tail(comment: string): string { if comment == "" then "" else "\t" + comment }

  predicate CommentOk(c: string) { c != "" ==> c[0] == '#' }

  predicate Clean(s: string) { Trimmed(s) && '#' !in s }

  /** What Classify makes of any line. */
  predicate Proper(l: Line) {
    match l
    case Blank => true
    case Remark(raw) => Classify(raw) == l
    case Malformed => true
    case Head(name, comment) => Clean(name) && CommentOk(comment)
    case Pair(key, value, comment) =>
      Clean(key) && Clean(value) && CommentOk(comment) && '=' !in key && (key != "" ==> key[0] != '[')
  }

  lemma ClassifyProper(line: string)
    ensures Proper(Classify(line))
  {
    var text := Ltrim(line);
    if text != "" {
      var pos := Find(text, '#');
      var content := Rtrim(text[..pos]);
      BodyClean(text, pos, content);
      hide Ltrim, Rtrim, Find, Entry;
      if content != "" { EntryProper(content, text[pos..]); }
    }
  }

  lemma EntryProper(content: string, comment: string)
    requires content != "" && Clean(content) && CommentOk(comment)
    ensures Proper(Entry(content, comment))
  {
    hide Trim, Find, IsSpace;
    if content[0] == '[' {
      if content[|content| - 1] == ']' { TrimClean(content[1..|content| - 1]); }
    } else {
      var pos := Find(content, '=');
      if pos < |content| {
        TrimClean(content[..pos]);
        TrimClean(content[pos + 1..]);
        FirstOfTrim(content[..pos]);
      }
    }
  }

  lemma TrimClean(s: string)
    requires '#' !in s
    ensures Clean(Trim(s)) && forall c | c in Trim(s) :: c in s
  {
    TrimIsTrimmed(s);
  }

  /** What begins without a space keeps its first character. */
  lemma FirstOfTrim(s: string)
    requires s != "" ==> !IsSpace(s[0])
    ensures Trim(s) != "" ==> s != "" && Trim(s)[0] == s[0]
  {
  }

  /** A written line reads as what it was written for. */
  lemma ClassifyCanon(l: Line)
    requires Proper(l) && !l.Malformed?
    ensures Classify(Canon(l)) == l
  {
    hide Classify, Entry, Trim;
    match l
    case Blank => BlankLine();
    case Remark(_) =>
    case Head(name, comment) => HeadCanon(name, comment);
    case Pair(key, value, comment) => PairCanon(key, value, comment);
  }

  lemma BlankLine()
    ensures Classify("") == Blank
  {
  }

  /** A line of spaces, a content without `#`, spaces and a comment. */
  lemma ClassifyContent(w: string, content: string, gap: string, comment: string)
    requires Spaces(w) && content != "" && Clean(content) && Spaces(gap) && CommentOk(comment)
    ensures Classify(w + content + gap + comment) == Entry(content, comment)
  {
    var text := content + gap + comment;
    assert w + content + gap + comment == w + text && text[0] == content[0];
    hide Ltrim, Rtrim, Find, Entry;
    LtrimSpaces(w, text);
    NothingToTrim(text);
    CommentCut(content, gap, comment);
  }

  /** Where the comment begins, and what is before it. */
  lemma CommentCut(content: string, gap: string, comment: string)
    requires content != "" && Clean(content) && Spaces(gap) && CommentOk(comment)
    ensures var text := content + gap + comment;
      var pos := Find(text, '#');
      text[pos..] == comment && Rtrim(text[..pos]) == content
  {
    var body := content + gap;
    hide Ltrim, Rtrim, Find;
    FindBehind(body, comment, '#');
    FindFirst(comment, '#');
    assert (body + comment)[..|body|] == body && (body + comment)[|body|..] == comment;
    RtrimSpaces(content, gap);
    NothingToTrim(content);
  }

  lemma FindFirst(s: string, c: char)
    requires s != "" ==> s[0] == c
    ensures Find(s, c) == 0
  {
  }

  /** What separates the content from the comment. */
  function Gap(comment: string): string { if comment == "" then "" else "\t" }

  lemma TailIs(comment: string)
    ensures Tail(comment) == Gap(comment) + comment
  {
  }

  /** A line with a name in brackets, spaces around them, and a comment behind. */
  predicate HeadLine(line: string, w0: string, w1: string, name: string, w2: string, w3: string, comment: string) {
    && line == w0 + ("[" + (w1 + name + w2) + "]") + w3 + comment
    && Spaces(w0) && Spaces(w1) && Spaces(w2) && Spaces(w3) && Clean(name) && CommentOk(comment)
  }

  /** A line with a key, `=`, a value, spaces around them, and a comment behind. */
  predicate PairLine(line: string, w0: string, key: string, w1: string, w2: string, value: string, w3: string, comment: string) {
    && line == w0 + key + w1 + "=" + w2 + value + w3 + comment
    && Spaces(w0) && Spaces(w1) && Spaces(w2) && Spaces(w3) && Clean(key) && Clean(value) && CommentOk(comment)
    && '=' !in key && (key != "" ==> key[0] != '[')
  }

  /** A name between brackets is a section, whatever spaces are around it. */
  lemma HeadRead(line: string, w0: string, w1: string, name: string, w2: string, w3: string, comment: string)
    requires HeadLine(line, w0, w1, name, w2, w3, comment)
    ensures Classify(line) == Head(name, comment)
  {
    hide Classify, Trim, Find, Ltrim, Rtrim;
    var content := "[" + (w1 + name + w2) + "]";
    assert content[1..|content| - 1] == w1 + name + w2;
    TrimAround(w1, name, w2);
    assert Entry(content, comment) == Head(name, comment);
    hide Entry;
    ClassifyContent(w0, content, w3, comment);
  }

  /** What is before the first `=` and what is behind it, but for spaces and a comment, are a key and its value. */
  lemma PairRead(line: string, w0: string, key: string, w1: string, w2: string, value: string, w3: string, comment: string)
    requires PairLine(line, w0, key, w1, w2, value, w3, comment)
    ensures Classify(line) == Pair(key, value, comment)
  {
    var before, behind := if key == "" then "" else key + w1, if value == "" then "" else w2 + value;
    var w, gap := if key == "" then w0 + w1 else w0, if value == "" then w2 + w3 else w3;
    var content := before + ("=" + behind);
    PairText(w0, key, w1, w2, value, w3, comment);
    PairClean(key, w1, w2, value);
    PairEntry(key, w1, w2, value, comment);
    assert Spaces(w) && Spaces(gap);
    hide *;
    ClassifyContent(w, content, gap, comment);
  }

  /** The content of the line: no space before an empty key, none behind an empty value. */
  lemma PairClean(key: string, w1: string, w2: string, value: string)
    requires Spaces(w1) && Spaces(w2) && Clean(key) && Clean(value) && '=' !in key && (key != "" ==> key[0] != '[')
    ensures var before, behind := if key == "" then "" else key + w1, if value == "" then "" else w2 + value;
      var content := before + ("=" + behind);
      content != "" && Clean(content) && content[0] != '[' && '=' !in before && Trimmed(key) && Trimmed(value)
  {
  }

  lemma PairEntry(key: string, w1: string, w2: string, value: string, comment: string)
    requires Spaces(w1) && Spaces(w2) && Clean(key) && Clean(value) && '=' !in key && (key != "" ==> key[0] != '[')
    ensures var content := (if key == "" then "" else key + w1) + ("=" + if value == "" then "" else w2 + value);
      content != "" && Entry(content, comment) == Pair(key, value, comment)
  {
    hide *;
    PairClean(key, w1, w2, value);
    TrimBehind(key, w1);
    TrimBefore(w2, value);
    PairCut(if key == "" then "" else key + w1, if value == "" then "" else w2 + value, comment);
  }

  lemma PairCut(before: string, behind: string, comment: string)
    requires '=' !in before && (before + ("=" + behind))[0] != '['
    ensures Entry(before + ("=" + behind), comment) == Pair(Trim(before), Trim(behind), comment)
  {
    hide Trim, Find;
    FindDelimiter(before, behind);
  }

  lemma TrimBehind(s: string, w: string)
    requires Trimmed(s) && Spaces(w)
    ensures Trim(if s == "" then "" else s + w) == s
  {
    hide Trim, Ltrim, Rtrim;
    var v := if s == "" then "" else w;
    TrimAround("", s, v);
    assert "" + s + v == if s == "" then "" else s + w;
  }

  lemma TrimBefore(w: string, s: string)
    requires Trimmed(s) && Spaces(w)
    ensures Trim(if s == "" then "" else w + s) == s
  {
    hide Trim, Ltrim, Rtrim;
    var v := if s == "" then "" else w;
    TrimAround(v, s, "");
    assert v + s + "" == if s == "" then "" else w + s;
  }

  lemma PairText(w0: string, key: string, w1: string, w2: string, value: string, w3: string, comment: string)
    ensures var before, behind := if key == "" then "" else key + w1, if value == "" then "" else w2 + value;
      var w, gap := if key == "" then w0 + w1 else w0, if value == "" then w2 + w3 else w3;
      w + (before + ("=" + behind)) + gap + comment == w0 + key + w1 + "=" + w2 + value + w3 + comment
  {
  }

  lemma FindDelimiter(before: string, behind: string)
    requires '=' !in before
    ensures var content := before + ("=" + behind);
      Find(content, '=') == |before| && content[..|before|] == before && content[|before| + 1..] == behind
  {
    hide Find;
    FindBehind(before, "=" + behind, '=');
    FindFirst("=" + behind, '=');
  }

  lemma {:induction false} LtrimCuts(s: string)
    ensures Spaces(s[..|s| - |Ltrim(s)|])
  {
    if s != "" && IsSpace(s[0]) {
      LtrimCuts(s[1..]);
      assert s[..|s| - |Ltrim(s)|] == [s[0]] + s[1..][..|s| - 1 - |Ltrim(s)|];
    }
  }

  lemma {:induction false} RtrimCuts(s: string)
    ensures Spaces(s[|Rtrim(s)|..])
  {
    if s != "" && IsSpace(s[|s| - 1]) {
      RtrimCuts(s[..|s| - 1]);
      assert s[|Rtrim(s)|..] == s[..|s| - 1][|Rtrim(s)|..] + [s[|s| - 1]];
    }
  }

  lemma TrimCuts(s: string) returns (w: string, v: string)
    ensures s == w + Trim(s) + v && Spaces(w) && Spaces(v)
  {
    LtrimCuts(s);
    RtrimCuts(Ltrim(s));
    hide Ltrim, Rtrim, Spaces;
    w, v := s[..|s| - |Ltrim(s)|], Ltrim(s)[|Trim(s)|..];
    Halves(s, |s| - |Ltrim(s)|);
    Halves(Ltrim(s), |Trim(s)|);
    Assoc(w, Trim(s), v);
  }

  lemma Halves(s: string, i: nat)
    requires i <= |s|
    ensures s[..i] + s[i..] == s
  {
  }

  lemma AllSpaces(s: string)
    requires Spaces(s) && (s == "" || !IsSpace(s[0]))
    ensures s == ""
  {
  }

  /** A text as its content, spaces and a comment. */
  lemma BodyCut(text: string) returns (gap: string)
    requires text == "" || !IsSpace(text[0])
    ensures var pos := Find(text, '#');
      var content, comment := Rtrim(text[..pos]), text[pos..];
      text == content + gap + comment && Spaces(gap) && CommentOk(comment) && Clean(content) && (content == comment == "" ==> text == "")
  {
    var pos := Find(text, '#');
    var content := Rtrim(text[..pos]);
    RtrimCuts(text[..pos]);
    gap := text[..pos][|content|..];
    BodyClean(text, pos, content);
    Halves(text, pos);
    Halves(text[..pos], |content|);
    hide *;
    if content == "" && pos == |text| {
      assert text[..pos] == text && "" + gap == gap;
      AllSpaces(text);
    }
  }

  lemma BodyClean(text: string, pos: nat, content: string)
    requires (text == "" || !IsSpace(text[0])) && pos == Find(text, '#') && content == Rtrim(text[..pos])
    ensures CommentOk(text[pos..]) && Clean(content) && content == text[..pos][..|content|]
  {
    hide Rtrim, Find;
    assert forall c | c in content :: c in text[..pos];
    if content != "" { assert content[0] == text[..pos][0] == text[0]; }
  }

  lemma Joined(a: string, b: string, c: string, d: string)
    ensures a + (b + c + d) == a + b + c + d
  {
  }

  /** The content of a line and what is around it. */
  lemma ContentCut(line: string) returns (w: string, content: string, gap: string, comment: string)
    ensures line == w + content + gap + comment && Spaces(w) && Spaces(gap) && CommentOk(comment) && Clean(content)
    ensures Classify(line) == if content != "" then Entry(content, comment) else if comment != "" then Remark(line) else Blank
    ensures content == comment == "" ==> gap == ""
  {
    var text := Ltrim(line);
    LtrimCuts(line);
    Halves(line, |line| - |text|);
    w := line[..|line| - |text|];
    gap := BodyCut(text);
    var pos := Find(text, '#');
    content, comment := Rtrim(text[..pos]), text[pos..];
    assert Classify(line) == if text == "" then Blank else if content == "" then Remark(line) else Entry(content, comment);
    hide *;
    Joined(w, content, gap, comment);
  }

  lemma EntryCases(content: string, comment: string)
    requires content != ""
    ensures Entry(content, comment).Pair? ==>
      var pos := Find(content, '=');
      pos < |content| && content[pos] == '=' && Entry(content, comment) == Pair(Trim(content[..pos]), Trim(content[pos + 1..]), comment)
    ensures Entry(content, comment).Head? ==>
      && |content| >= 2 && content[0] == '[' && content[|content| - 1] == ']'
      && Entry(content, comment) == Head(Trim(content[1..|content| - 1]), comment)
  {
    hide Trim;
  }

  lemma CutAtSign(s: string, i: nat)
    requires i < |s| && s[i] == '='
    ensures s == s[..i] + "=" + s[i + 1..]
  {
  }

  lemma CutBrackets(s: string)
    requires |s| >= 2 && s[0] == '[' && s[|s| - 1] == ']'
    ensures s == "[" + s[1..|s| - 1] + "]"
  {
  }

  /** The two sides of the first `=`. */
  lemma PairParts(content: string, comment: string) returns (before: string, behind: string)
    requires content != ""
    ensures Entry(content, comment).Pair? ==> content == before + "=" + behind && Entry(content, comment) == Pair(Trim(before), Trim(behind), comment)
  {
    before, behind := "", "";
    EntryCases(content, comment);
    hide *;
    if Entry(content, comment).Pair? {
      var pos := Find(content, '=');
      before, behind := content[..pos], content[pos + 1..];
      CutAtSign(content, pos);
    }
  }

  /** The line from its parts. */
  lemma PairAround(line: string, w: string, a: string, key: string, b: string, c: string, value: string, d: string, gap: string, comment: string)
    requires line == w + ((a + key + b) + "=" + (c + value + d)) + gap + comment
    requires Spaces(w) && Spaces(a) && Spaces(b) && Spaces(c) && Spaces(d) && Spaces(gap) && Proper(Pair(key, value, comment))
    ensures PairLine(line, w + a, key, b, c, value, d + gap, comment)
  {
    hide Spaces, Clean, CommentOk;
    SpacesTogether(w, a);
    SpacesTogether(d, gap);
    Regrouped(w, a, key, b, c, value, d, gap, comment);
  }

  lemma Regrouped(w: string, a: string, k: string, b: string, c: string, v: string, d: string, gap: string, comment: string)
    ensures w + ((a + k + b) + "=" + (c + v + d)) + gap + comment == (w + a) + k + b + "=" + c + v + (d + gap) + comment
  {
  }

  lemma SpacesTogether(v: string, w: string)
    requires Spaces(v) && Spaces(w)
    ensures Spaces(v + w)
  {
  }

  /** A line is a pair only when it is written like that. */
  lemma PairWritten(line: string) returns (w0: string, w1: string, w2: string, w3: string)
    ensures var l := Classify(line); l.Pair? ==> PairLine(line, w0, l.key, w1, w2, l.value, w3, l.comment)
  {
    w0, w1, w2, w3 := "", "", "", "";
    if Classify(line).Pair? {
      ClassifyProper(line);
      hide Classify, Trim, Find, Spaces, Entry, Clean, CommentOk, PairLine;
      var w, content, gap, comment := ContentCut(line);
      var before, behind := PairParts(content, comment);
      var a, b := TrimCuts(before);
      var c, d := TrimCuts(behind);
      w0, w1, w2, w3 := w + a, b, c, d + gap;
      hide *;
      PairAround(line, w, a, Trim(before), b, c, Trim(behind), d, gap, comment);
    }
  }

  /** A line is a section only when it is written like that. */
  lemma HeadWritten(line: string) returns (w0: string, w1: string, w2: string, w3: string)
    ensures var l := Classify(line); l.Head? ==> HeadLine(line, w0, w1, l.name, w2, w3, l.comment)
  {
    w0, w1, w2, w3 := "", "", "", "";
    if Classify(line).Head? {
      ClassifyProper(line);
      hide Classify, Trim, Find, Spaces, Entry, Clean, CommentOk;
      var w, content, gap, comment := ContentCut(line);
      EntryCases(content, comment);
      CutBrackets(content);
      var inner := content[1..|content| - 1];
      w1, w2 := TrimCuts(inner);
      w0, w3 := w, gap;
    }
  }

  /** A line is blank when it has nothing but spaces, and a remark when it has a comment and nothing but spaces before it. */
  lemma RemarkWritten(line: string)
    ensures Classify(line).Blank? <==> Spaces(line)
    ensures Classify(line).Remark? <==> exists i :: HashAt(line, i)
    ensures Classify(line).Remark? ==> Classify(line).raw == line
  {
    var w, content, gap, comment := ContentCut(line);
    hide Classify, Entry;
    if content != "" {
      NoHashAt(w, content, gap, comment);
    } else if comment != "" {
      assert line == w + gap + comment;
      SpacesTogether(w, gap);
      HashBehind(w + gap, comment);
      hide *;
      assert HashAt(line, |w + gap|);
    } else {
      assert line == w;
      forall i ensures !HashAt(line, i) { assert 0 <= i < |line| ==> line[i] in w; }
    }
  }

  predicate HashAt(line: string, i: int) { 0 <= i < |line| && line[i] == '#' && Spaces(line[..i]) }

  lemma NoHashAt(w: string, content: string, gap: string, comment: string)
    requires Spaces(w) && content != "" && Clean(content)
    ensures var line := w + content + gap + comment; !Spaces(line) && forall i :: !HashAt(line, i)
  {
    var line := w + content + gap + comment;
    var c := content[0];
    assert line[|w|] == c && !IsSpace(c) && c != '#';
    assert forall k | 0 <= k < |w| :: line[k] in w && IsSpace(line[k]);
    forall i ensures !HashAt(line, i) {
      if |w| < i < |line| { assert line[..i][|w|] == c && c in line[..i]; }
    }
  }

  lemma HashBehind(w: string, comment: string)
    requires Spaces(w) && comment != "" && comment[0] == '#'
    ensures HashAt(w + comment, |w|) && !Spaces(w + comment)
  {
    var line := w + comment;
    assert line[..|w|] == w && line[|w|] == '#' && line[|w|] in line;
  }

  lemma HeadCanon(name: string, comment: string)
    requires Proper(Head(name, comment))
    ensures Classify(Canon(Head(name, comment))) == Head(name, comment)
  {
    hide Classify;
    TailIs(comment);
    assert "" + ("[" + ("" + name + "") + "]") + Gap(comment) + comment == Canon(Head(name, comment));
    HeadRead(Canon(Head(name, comment)), "", "", name, "", Gap(comment), comment);
  }

  lemma PairCanon(key: string, value: string, comment: string)
    requires Proper(Pair(key, value, comment))
    ensures Classify(Canon(Pair(key, value, comment))) == Pair(key, value, comment)
  {
    hide Classify;
    TailIs(comment);
    CanonText(key, value, Gap(comment), comment);
    assert Canon(Pair(key, value, comment)) == key + " = " + value + (Gap(comment) + comment);
    assert Spaces(Gap(comment));
    hide Tail, Gap, Canon;
    PairRead(Canon(Pair(key, value, comment)), "", key, " ", " ", value, Gap(comment), comment);
  }

  lemma CanonText(key: string, value: string, gap: string, comment: string)
    ensures Spaces("") && Spaces(" ") && Spaces("\t")
    ensures "" + key + " " + "=" + " " + value + gap + comment == key + " = " + value + (gap + comment)
  {
  }

  // ------------------------------------------------------------ the tree

  /** A node without children but for the comment behind it (INI_NODE_TYPE_SPAN): blank and comment lines
      (INI_NODE_TYPE_DIV), or a key with its value. */
  datatype Leaf = Div(text: string) | KeyValue(key: string, value: string, comment: string)

  /** A child of the root: a leaf, or a section with its comment and its leaves. */
  datatype Top = Direct(leaf: Leaf) | Section(name: string, comment: string, children: seq<Leaf>)

  type Root = seq<Top>

  /** A leaf goes to the last section, or to the root as long as there is none. */
  function AddLeaf(root: Root, leaf: Leaf): Root {
    if root != [] && root[|root| - 1].Section? then
      var last := root[|root| - 1];
      root[..|root| - 1] + [Section(last.name, last.comment, last.children + [leaf])]
    else root + [Direct(leaf)]
  }

  /** The tree so far, and the blank and comment lines read since. */
  datatype Loading = Loading(root: Root, div: string)

  function Flush(s: Loading): Root { if s.div == "" then s.root else AddLeaf(s.root, Div(s.div)) }

  /** What the loop of LoadFromMem does with a line. */
  function LoadLine(s: Loading, l: Line): Loading {
    match l
    case Blank => Loading(s.root, s.div + "\n")
    case Remark(raw) => Loading(s.root, s.div + raw + "\n")
    case Malformed => Loading(Flush(s), "")
    case Head(name, comment) => Loading(Flush(s) + [Section(name, comment, [])], "")
    case Pair(key, value, comment) => Loading(AddLeaf(Flush(s), KeyValue(key, value, comment)), "")
  }

  function LoadLines(ls: seq<Line>): Loading {
    if ls == [] then Loading([], "") else LoadLine(LoadLines(ls[..|ls| - 1]), ls[|ls| - 1])
  }

  /** Lines at the end of the file belong to the root. */
  function Finished(s: Loading): Root { if s.div == "" then s.root else s.root + [Direct(Div(s.div))] }

  function Classified(text: string): (ls: seq<Line>)
    ensures |ls| == |Lines(text)| && forall i | 0 <= i < |ls| :: ls[i] == Classify(Lines(text)[i])
  {
    seq(|Lines(text)|, i requires 0 <= i < |Lines(text)| => Classify(Lines(text)[i]))
  }

  function Load(text: string): Root { Finished(LoadLines(Classified(text))) }

  // ------------------------------------------------------------ dumping

  function EndsLine(s: string): bool { s == "" || s[|s| - 1] == '\n' }

  function NewLine(s: string): string { if EndsLine(s) then s else s + "\n" }

  function DumpLeaf(str: string, leaf: Leaf): string {
    match leaf
    case Div(text) => NewLine(str) + text
    case KeyValue(key, value, comment) => NewLine(str) + (key + " = " + value) + Tail(comment)
  }

  function DumpLeaves(str: string, leaves: seq<Leaf>): string {
    if leaves == [] then str else DumpLeaf(DumpLeaves(str, leaves[..|leaves| - 1]), leaves[|leaves| - 1])
  }

  function DumpTop(str: string, top: Top): string {
    match top
    case Direct(leaf) => DumpLeaf(str, leaf)
    case Section(name, comment, children) => DumpLeaves(NewLine(str) + ("[" + name + "]") + Tail(comment), children)
  }

  function Dump(root: Root): string {
    if root == [] then "" else DumpTop(Dump(root[..|root| - 1]), root[|root| - 1])
  }

  /** The text as its lines write it, one after the other. */
  function WriteLine(str: string, l: Line): string {
    match l
    case Malformed => str
    case Blank => NewLine(str) + "\n"
    case Remark(raw) => NewLine(str) + raw + "\n"
    case _ => NewLine(str) + Canon(l)
  }

  function WriteLines(ls: seq<Line>): string {
    if ls == [] then "" else WriteLine(WriteLines(ls[..|ls| - 1]), ls[|ls| - 1])
  }

  lemma DumpAdd(root: Root, leaf: Leaf)
    ensures Dump(AddLeaf(root, leaf)) == DumpLeaf(Dump(root), leaf)
  {
    var root' := AddLeaf(root, leaf);
    assert root'[..|root'| - 1] == if root != [] && root[|root| - 1].Section? then root[..|root| - 1] else root;
    if root != [] && root[|root| - 1].Section? {
      var last := root[|root| - 1];
      assert (last.children + [leaf])[..|last.children|] == last.children;
    }
  }

  lemma DumpAppend(root: Root, top: Top)
    ensures Dump(root + [top]) == DumpTop(Dump(root), top)
  {
    assert (root + [top])[..|root|] == root;
  }

  /** The tree and the lines still pending, dumped. */
  function DumpLoading(s: Loading): string { if s.div == "" then Dump(s.root) else NewLine(Dump(s.root)) + s.div }

  lemma DumpLine(s: Loading, l: Line)
    requires EndsLine(s.div)
    ensures EndsLine(LoadLine(s, l).div) && DumpLoading(LoadLine(s, l)) == WriteLine(DumpLoading(s), l)
  {
    hide Dump;
    DumpFlush(s);
    match l
    case Blank => DumpDiv(s, "");
    case Remark(raw) => DumpDiv(s, raw);
    case Malformed =>
    case Head(name, comment) =>
      DumpAppend(Flush(s), Section(name, comment, []));
      var str := NewLine(DumpLoading(s));
      assert str + ("[" + name + "]") + Tail(comment) == str + ("[" + name + "]" + Tail(comment));
    case Pair(key, value, comment) =>
      DumpAdd(Flush(s), KeyValue(key, value, comment));
      var str := NewLine(DumpLoading(s));
      assert str + (key + " = " + value) + Tail(comment) == str + (key + " = " + value + Tail(comment));
  }

  lemma DumpFlush(s: Loading)
    ensures Dump(Flush(s)) == DumpLoading(s)
  {
    if s.div != "" { DumpAdd(s.root, Div(s.div)); }
  }

  lemma DumpDiv(s: Loading, raw: string)
    requires EndsLine(s.div)
    ensures var div := s.div + raw + "\n";
      EndsLine(div) && DumpLoading(Loading(s.root, div)) == NewLine(DumpLoading(s)) + raw + "\n"
  {
    hide Dump;
    var div, str := s.div + raw + "\n", NewLine(Dump(s.root));
    assert div[|div| - 1] == '\n';
    if s.div == "" {
      assert div == raw + "\n";
      Joins(str, "", raw, "\n");
    } else {
      LineKept(str, s.div);
      Joins(str, s.div, raw, "\n");
    }
  }

  lemma Joins(a: string, b: string, c: string, d: string)
    ensures a + (b + c + d) == a + b + c + d && a + "" == a
  {
  }

  lemma LineKept(str: string, div: string)
    requires div != "" && EndsLine(div)
    ensures NewLine(str + div) == str + div
  {
    assert (str + div)[|str + div| - 1] == div[|div| - 1];
  }

  /** The dump of what was loaded is its well-formed lines. */
  lemma {:induction false} DumpIsLines(ls: seq<Line>)
    ensures EndsLine(LoadLines(ls).div) && DumpLoading(LoadLines(ls)) == WriteLines(ls)
  {
    if ls != [] {
      DumpIsLines(ls[..|ls| - 1]);
      DumpLine(LoadLines(ls[..|ls| - 1]), ls[|ls| - 1]);
    }
  }

  lemma DumpLoaded(text: string)
    ensures Dump(Load(text)) == WriteLines(Classified(text))
  {
    var s := LoadLines(Classified(text));
    DumpIsLines(Classified(text));
    if s.div != "" { DumpAppend(s.root, Direct(Div(s.div))); }
  }

  // ------------------------------------------------------------ reading what was written

  lemma {:induction false} FindInFront(a: string, b: string, c: char)
    requires c in a
    ensures Find(a + b, c) == Find(a, c) < |a|
  {
    assert (a + b)[0] == a[0];
    if a[0] != c {
      assert (a + b)[1..] == a[1..] + b;
      FindInFront(a[1..], b, c);
    }
  }

  lemma SplitAt<T>(a: seq<T>, b: seq<T>, i: nat)
    requires i < |a|
    ensures (a + b)[..i] == a[..i] && (a + b)[i + 1..] == a[i + 1..] + b
  {
  }

  lemma Assoc<T>(a: seq<T>, b: seq<T>, c: seq<T>)
    ensures a + b + c == a + (b + c)
  {
  }

  /** The first of complete lines. */
  lemma FirstOfComplete(a: string, b: string, i: nat)
    requires EndsLine(a) && a != "" && i == Find(a, '\n')
    ensures i < |a| && Find(a + b, '\n') == i && EndsLine(a[i + 1..])
  {
    FindInFront(a, b, '\n');
    hide Find;
  }

  lemma NoLines(b: string)
    ensures Lines("" + b) == Lines("") + Lines(b)
  {
    assert "" + b == b;
  }

  /** Complete lines before others. */
  lemma {:induction false} LinesAppend(a: string, b: string)
    requires EndsLine(a)
    ensures Lines(a + b) == Lines(a) + Lines(b)
    decreases |a|
  {
    hide *;
    if a == "" {
      NoLines(b);
    } else {
      var i := Find(a, '\n');
      FirstOfComplete(a, b, i);
      SplitAt(a, b, i);
      LineFirst(a, i, a[i + 1..]);
      LineFirst(a + b, i, (a + b)[i + 1..]);
      LinesAppend(a[i + 1..], b);
      Assoc([a[..i]], Lines(a[i + 1..]), Lines(b));
    }
  }

  lemma OneLine(l: string)
    requires '\n' !in l
    ensures Lines(l + "\n") == [l] && (l != "" ==> Lines(l) == [l])
  {
    FindBehind(l, "\n", '\n');
    FindFirst("\n", '\n');
    var t := l + "\n";
    assert t[..|l|] == l && t[|l| + 1..] == "";
    assert Lines(t) == [l] + Lines("");
    if l != "" {
      FindBehind(l, "", '\n');
      assert l + "" == l && l[..|l|] == l;
    }
  }

  /** The last line needs no end. */
  lemma {:induction false} LinesNewLine(s: string)
    ensures Lines(NewLine(s)) == Lines(s)
    decreases |s|
  {
    if !EndsLine(s) {
      if '\n' in s {
        FindInFront(s, "\n", '\n');
        var i := Find(s, '\n');
        assert (s + "\n")[..i] == s[..i] && (s + "\n")[i + 1..] == s[i + 1..] + "\n";
        assert s[i + 1..] != "" && s[i + 1..][|s[i + 1..]| - 1] == s[|s| - 1];
        LinesNewLine(s[i + 1..]);
      } else {
        OneLine(s);
      }
    }
  }

  /** The well-formed lines. */
  function Good(ls: seq<Line>): (r: seq<Line>)
    ensures forall l | l in r :: l in ls && !l.Malformed?
  {
    if ls == [] then []
    else
      var l := ls[|ls| - 1];
      Good(ls[..|ls| - 1]) + if l.Malformed? then [] else [l]
  }

  function Canons(ls: seq<Line>): seq<string> {
    if ls == [] then [] else Canons(ls[..|ls| - 1]) + [Canon(ls[|ls| - 1])]
  }

  /** A line that came out of a text. */
  predicate FromText(l: Line) { Proper(l) && '\n' !in Canon(l) && (l.Remark? ==> l.raw != "") }

  lemma {:induction false} WrittenLines(ls: seq<Line>)
    requires forall l | l in ls :: FromText(l)
    ensures Lines(WriteLines(ls)) == Canons(Good(ls))
  {
    if ls != [] {
      var init, l := ls[..|ls| - 1], ls[|ls| - 1];
      WrittenLines(init);
      if l.Malformed? {
        assert Good(init) + [] == Good(init);
      } else {
        WrittenLine(WriteLines(init), l);
        assert (Good(init) + [l])[..|Good(init)|] == Good(init);
      }
    }
  }

  /** One more line, complete or not. */
  lemma AddLine(str: string, c: string, end: string)
    requires '\n' !in c && (end == "\n" || (end == "" && c != ""))
    ensures Lines(NewLine(str) + c + end) == Lines(str) + [c]
  {
    OneLine(c);
    LinesNewLine(str);
    assert EndsLine(NewLine(str));
    hide *;
    LinesAppend(NewLine(str), c + end);
    Assoc(NewLine(str), c, end);
    if end == "" { assert c + "" == c; }
  }

  lemma WrittenLine(str: string, l: Line)
    requires FromText(l) && !l.Malformed?
    ensures Lines(WriteLine(str, l)) == Lines(str) + [Canon(l)]
  {
    hide Lines, NewLine, Proper;
    var front, c := NewLine(str), Canon(l);
    match l
    case Blank =>
      AddLine(str, "", "\n");
      assert front + "" + "\n" == front + "\n";
    case Remark(raw) => AddLine(str, raw, "\n");
    case Head(_, _) =>
      AddLine(str, c, "");
      assert front + c + "" == front + c;
    case Pair(_, _, _) =>
      AddLine(str, c, "");
      assert front + c + "" == front + c;
  }

  lemma ClassifiedFromText(text: string)
    ensures forall l | l in Classified(text) :: FromText(l)
  {
    forall i | 0 <= i < |Lines(text)| ensures FromText(Classify(Lines(text)[i])) {
      ClassifyProper(Lines(text)[i]);
      CanonOneLine(Lines(text)[i]);
    }
  }

  lemma CanonOneLine(line: string)
    requires '\n' !in line
    ensures '\n' !in Canon(Classify(line)) && (Classify(line).Remark? ==> Classify(line).raw != "")
  {
    var text := Ltrim(line);
    LtrimIn(line);
    hide Ltrim, Rtrim, Find, Entry;
    if text != "" {
      var pos := Find(text, '#');
      var content := Rtrim(text[..pos]);
      RtrimIn(text[..pos]);
      if content != "" { EntryOneLine(content, text[pos..]); } else { EmptyRemark(line); }
    }
  }

  lemma EmptyRemark(line: string)
    requires Ltrim(line) != ""
    ensures line != ""
  {
  }

  lemma LtrimIn(s: string)
    ensures forall c | c in Ltrim(s) :: c in s
  {
  }

  lemma RtrimIn(s: string)
    ensures forall c | c in Rtrim(s) :: c in s
  {
  }

  lemma EntryOneLine(content: string, comment: string)
    requires content != "" && '\n' !in content && '\n' !in comment
    ensures '\n' !in Canon(Entry(content, comment))
  {
    hide Trim, Find, IsSpace;
    if content[0] == '[' {
      if content[|content| - 1] == ']' { TrimIsTrimmed(content[1..|content| - 1]); }
    } else {
      var pos := Find(content, '=');
      if pos < |content| {
        TrimIsTrimmed(content[..pos]);
        TrimIsTrimmed(content[pos + 1..]);
      }
    }
  }

  // ------------------------------------------------------------ the canonical form

  /** A dump reads as the well-formed lines of the text it came from. */
  lemma DumpReads(text: string)
    ensures Classified(Dump(Load(text))) == Good(Classified(text))
  {
    var ls := Classified(text);
    DumpLoaded(text);
    ClassifiedFromText(text);
    WrittenLines(ls);
    CanonsAt(Good(ls));
    var read := Classified(Dump(Load(text)));
    forall i | 0 <= i < |read| ensures read[i] == Good(ls)[i] {
      assert Good(ls)[i] in Good(ls);
      ClassifyCanon(Good(ls)[i]);
    }
  }

  lemma {:induction false} CanonsAt(ls: seq<Line>)
    ensures |Canons(ls)| == |ls| && forall i | 0 <= i < |ls| :: Canons(ls)[i] == Canon(ls[i])
  {
    if ls != [] { CanonsAt(ls[..|ls| - 1]); }
  }

  lemma {:induction false} WriteGood(ls: seq<Line>)
    ensures WriteLines(Good(ls)) == WriteLines(ls)
  {
    if ls != [] {
      var init, l := ls[..|ls| - 1], ls[|ls| - 1];
      WriteGood(init);
      if l.Malformed? {
        assert Good(init) + [] == Good(init);
      } else {
        assert (Good(init) + [l])[..|Good(init)|] == Good(init);
      }
    }
  }

  /** Loading a dump and dumping again gives the same text. */
  lemma DumpIsFixpoint(text: string)
    ensures Dump(Load(Dump(Load(text)))) == Dump(Load(text))
  {
    DumpReads(text);
    DumpLoaded(text);
    DumpLoaded(Dump(Load(text)));
    WriteGood(Classified(text));
  }

  /** A tree without its blank and comment lines: the sections, keys, values and the comments behind them, in order. */
  function Bare(root: Root): Root {
    if root == [] then []
    else Bare(root[..|root| - 1]) + match root[|root| - 1]
      case Direct(leaf) => if leaf.Div? then [] else [Direct(leaf)]
      case Section(name, comment, children) => [Section(name, comment, BareLeaves(children))]
  }

  function BareLeaves(leaves: seq<Leaf>): seq<Leaf> {
    if leaves == [] then []
    else BareLeaves(leaves[..|leaves| - 1]) + if leaves[|leaves| - 1].Div? then [] else [leaves[|leaves| - 1]]
  }

  /** The bare tree of a list of lines. */
  function BareLines(ls: seq<Line>): Root {
    if ls == [] then []
    else
      var root := BareLines(ls[..|ls| - 1]);
      match ls[|ls| - 1]
      case Head(name, comment) => root + [Section(name, comment, [])]
      case Pair(key, value, comment) => AddLeaf(root, KeyValue(key, value, comment))
      case _ => root
  }

  /** No leaf of the root comes after a section: so it is while a text is loaded. */
  predicate Scoped(root: Root) { forall i, j | 0 <= i < j < |root| && root[i].Section? :: root[j].Section? }

  lemma BareAppend(root: Root, top: Top)
    ensures Bare(root + [top]) == Bare(root) + match top
      case Direct(leaf) => if leaf.Div? then [] else [Direct(leaf)]
      case Section(name, comment, children) => [Section(name, comment, BareLeaves(children))]
  {
    assert (root + [top])[..|root|] == root;
  }

  lemma {:induction false} BareDirect(root: Root)
    requires forall i | 0 <= i < |root| :: root[i].Direct?
    ensures forall i | 0 <= i < |Bare(root)| :: Bare(root)[i].Direct?
  {
    if root != [] { BareDirect(root[..|root| - 1]); }
  }

  lemma BareAdd(root: Root, leaf: Leaf)
    requires Scoped(root)
    ensures Scoped(AddLeaf(root, leaf))
    ensures Bare(AddLeaf(root, leaf)) == if leaf.Div? then Bare(root) else AddLeaf(Bare(root), leaf)
  {
    if root != [] && root[|root| - 1].Section? {
      BareAddSection(root, leaf);
    } else {
      BareDirect(root);
      BareAppend(root, Direct(leaf));
      assert Bare(root) + [] == Bare(root);
    }
  }

  lemma BareSection(init: Root, name: string, comment: string, leaves: seq<Leaf>)
    ensures Bare(init + [Section(name, comment, leaves)]) == Bare(init) + [Section(name, comment, BareLeaves(leaves))]
  {
    BareAppend(init, Section(name, comment, leaves));
  }

  lemma BareAddSection(root: Root, leaf: Leaf)
    requires root != [] && root[|root| - 1].Section?
    ensures Bare(AddLeaf(root, leaf)) == if leaf.Div? then Bare(root) else AddLeaf(Bare(root), leaf)
  {
    hide Bare, AddLeaf;
    var init, last := root[..|root| - 1], root[|root| - 1];
    assert root == init + [last];
    BareAddTo(init, last.name, last.comment, last.children, leaf);
  }

  lemma BareAddTo(init: Root, name: string, comment: string, leaves: seq<Leaf>, leaf: Leaf)
    ensures var root := init + [Section(name, comment, leaves)];
      Bare(AddLeaf(root, leaf)) == if leaf.Div? then Bare(root) else AddLeaf(Bare(root), leaf)
  {
    hide Bare, BareLeaves, AddLeaf;
    AddToSection(init, name, comment, leaves, leaf);
    BareLeavesAppend(leaves, leaf);
    BareSection(init, name, comment, leaves);
    BareSection(init, name, comment, leaves + [leaf]);
    AddToSection(Bare(init), name, comment, BareLeaves(leaves), leaf);
  }

  lemma BareLeavesAppend(leaves: seq<Leaf>, leaf: Leaf)
    ensures BareLeaves(leaves + [leaf]) == if leaf.Div? then BareLeaves(leaves) else BareLeaves(leaves) + [leaf]
  {
    assert (leaves + [leaf])[..|leaves|] == leaves;
    assert BareLeaves(leaves) + [] == BareLeaves(leaves);
  }

  lemma AddToSection(init: Root, name: string, comment: string, leaves: seq<Leaf>, leaf: Leaf)
    ensures AddLeaf(init + [Section(name, comment, leaves)], leaf) == init + [Section(name, comment, leaves + [leaf])]
  {
    var root := init + [Section(name, comment, leaves)];
    assert root[..|root| - 1] == init;
  }

  lemma {:induction false} BareLoaded(ls: seq<Line>)
    ensures Scoped(LoadLines(ls).root) && Scoped(Flush(LoadLines(ls)))
    ensures Bare(LoadLines(ls).root) == Bare(Flush(LoadLines(ls))) == BareLines(ls)
  {
    if ls != [] {
      var s, l := LoadLines(ls[..|ls| - 1]), ls[|ls| - 1];
      BareLoaded(ls[..|ls| - 1]);
      BareLine(s, l, BareLines(ls[..|ls| - 1]));
    }
  }

  lemma BareLine(s: Loading, l: Line, bare: Root)
    requires Scoped(s.root) && Scoped(Flush(s)) && Bare(s.root) == Bare(Flush(s)) == bare
    ensures var s' := LoadLine(s, l);
      && Scoped(s'.root) && Scoped(Flush(s')) && Bare(s'.root) == Bare(Flush(s'))
      && Bare(s'.root) == match l
        case Head(name, comment) => bare + [Section(name, comment, [])]
        case Pair(key, value, comment) => AddLeaf(bare, KeyValue(key, value, comment))
        case _ => bare
  {
    hide AddLeaf, Bare;
    BareAdd(s.root, Div(LoadLine(s, l).div));
    match l
    case Head(name, comment) => BareAppend(Flush(s), Section(name, comment, [])); NoLeaves();
    case Pair(key, value, comment) => BareAdd(Flush(s), KeyValue(key, value, comment));
    case _ =>
  }

  lemma NoLeaves()
    ensures BareLeaves([]) == []
  {
  }

  lemma {:induction false} BareGood(ls: seq<Line>)
    ensures BareLines(Good(ls)) == BareLines(ls)
  {
    if ls != [] {
      var init, l := ls[..|ls| - 1], ls[|ls| - 1];
      BareGood(init);
      if l.Malformed? {
        assert Good(init) + [] == Good(init);
      } else {
        assert (Good(init) + [l])[..|Good(init)|] == Good(init);
      }
    }
  }

  lemma BareOfLoad(text: string)
    ensures Bare(Load(text)) == BareLines(Classified(text))
  {
    var s := LoadLines(Classified(text));
    BareLoaded(Classified(text));
    if s.div != "" {
      BareAppend(s.root, Direct(Div(s.div)));
      assert Bare(s.root) + [] == Bare(s.root);
    }
  }

  /** The reloaded tree has the same sections, keys, values and comments, in the same order. */
  lemma ReloadKeepsAll(text: string)
    ensures Bare(Load(Dump(Load(text)))) == Bare(Load(text))
  {
    DumpReads(text);
    BareOfLoad(text);
    BareOfLoad(Dump(Load(text)));
    BareGood(Classified(text));
  }

  // ------------------------------------------------------------ what a program asks for

  function SectionNames(root: Root): seq<string> {
    if root == [] then []
    else SectionNames(root[..|root| - 1]) + if root[|root| - 1].Section? then [root[|root| - 1].name] else []
  }

  function DirectLeaves(root: Root): seq<Leaf> {
    if root == [] then []
    else DirectLeaves(root[..|root| - 1]) + if root[|root| - 1].Direct? then [root[|root| - 1].leaf] else []
  }

  /** The leaves of the first section of a name. */
  function SectionLeaves(root: Root, name: string): Option<seq<Leaf>> {
    if root == [] then None
    else
      var before := SectionLeaves(root[..|root| - 1], name);
      var last := root[|root| - 1];
      if before.Some? then before else if last.Section? && last.name == name then Some(last.children) else None
  }

  /** No name stands for the root. */
  function LeavesOf(root: Root, section: string): Option<seq<Leaf>> {
    if section == "" then Some(DirectLeaves(root)) else SectionLeaves(root, section)
  }

  function Keys(leaves: seq<Leaf>): seq<string> {
    if leaves == [] then []
    else Keys(leaves[..|leaves| - 1]) + if leaves[|leaves| - 1].KeyValue? then [leaves[|leaves| - 1].key] else []
  }

  /** The value of the first entry of a key. */
  function Value(leaves: seq<Leaf>, key: string): Option<string> {
    if leaves == [] then None
    else
      var before := Value(leaves[..|leaves| - 1], key);
      var last := leaves[|leaves| - 1];
      if before.Some? then before else if last.KeyValue? && last.key == key then Some(last.value) else None
  }

  lemma {:induction false} BareNames(root: Root)
    ensures SectionNames(Bare(root)) == SectionNames(root)
    ensures DirectLeaves(Bare(root)) == BareLeaves(DirectLeaves(root))
  {
    if root != [] {
      var init, last := root[..|root| - 1], root[|root| - 1];
      BareNames(init);
      match last
      case Direct(leaf) =>
        BareLeavesAppend(DirectLeaves(init), leaf);
        if leaf.Div? { assert Bare(init) + [] == Bare(init); } else { assert (Bare(init) + [last])[..|Bare(init)|] == Bare(init); }
        assert SectionNames(init) + [] == SectionNames(init);
      case Section(name, comment, children) =>
        var top := Section(name, comment, BareLeaves(children));
        assert (Bare(init) + [top])[..|Bare(init)|] == Bare(init);
        assert DirectLeaves(init) + [] == DirectLeaves(init) && DirectLeaves(Bare(init)) + [] == DirectLeaves(Bare(init));
    }
  }

  lemma {:induction false} BareSectionLeaves(root: Root, name: string)
    ensures SectionLeaves(Bare(root), name) == match SectionLeaves(root, name)
      case None => None
      case Some(leaves) => Some(BareLeaves(leaves))
  {
    if root != [] {
      var init, last := root[..|root| - 1], root[|root| - 1];
      BareSectionLeaves(init, name);
      match last
      case Direct(leaf) =>
        if leaf.Div? { assert Bare(init) + [] == Bare(init); } else { assert (Bare(init) + [last])[..|Bare(init)|] == Bare(init); }
      case Section(name0, comment, children) =>
        var top := Section(name0, comment, BareLeaves(children));
        assert (Bare(init) + [top])[..|Bare(init)|] == Bare(init);
    }
  }

  lemma {:induction false} BareKeys(leaves: seq<Leaf>, key: string)
    ensures Keys(BareLeaves(leaves)) == Keys(leaves) && Value(BareLeaves(leaves), key) == Value(leaves, key)
  {
    if leaves != [] {
      var init, last := leaves[..|leaves| - 1], leaves[|leaves| - 1];
      BareKeys(init, key);
      if last.Div? {
        assert BareLeaves(init) + [] == BareLeaves(init) && Keys(init) + [] == Keys(init);
      } else {
        assert (BareLeaves(init) + [last])[..|BareLeaves(init)|] == BareLeaves(init);
      }
    }
  }

  /** What a program reads from a tree. */
  function Answer(root: Root, section: string, key: string): (seq<string>, Option<seq<string>>, Option<string>) {
    match LeavesOf(root, section)
    case None => (SectionNames(root), None, None)
    case Some(leaves) => (SectionNames(root), Some(Keys(leaves)), Value(leaves, key))
  }

  lemma AnswerOfBare(root: Root, section: string, key: string)
    ensures Answer(Bare(root), section, key) == Answer(root, section, key)
  {
    BareNames(root);
    BareSectionLeaves(root, section);
    if LeavesOf(root, section).Some? { BareKeys(LeavesOf(root, section).value, key); }
  }

  /** A program that asks for sections, keys and values gets the same answers after saving and loading. */
  lemma ReloadAnswersTheSame(text: string, section: string, key: string)
    ensures Answer(Load(Dump(Load(text))), section, key) == Answer(Load(text), section, key)
  {
    ReloadKeepsAll(text);
    AnswerOfBare(Load(text), section, key);
    AnswerOfBare(Load(Dump(Load(text))), section, key);
  }

  /** The value of a key in a section, or "". */
  function Lookup(root: Root, section: string, key: string): string {
    match LeavesOf(root, section)
    case None => ""
    case Some(leaves) => match Value(leaves, key) case None => "" case Some(v) => v
  }

  // ------------------------------------------------------------ lookups, by position

  /** Places in the order they come. */
  predicate Ascending(at: seq<nat>) { forall k, l | 0 <= k < l < |at| :: at[k] < at[l] }

  /** `names` are those of all the sections, in order; their places are `at`. */
  ghost predicate SectionsAt(root: Root, at: seq<nat>, names: seq<string>) {
    && |at| == |names| && Ascending(at)
    && (forall k | 0 <= k < |at| :: at[k] < |root| && root[at[k]].Section? && root[at[k]].name == names[k])
    && (forall i: nat | i < |root| && root[i].Section? :: i in at)
  }

  /** `keys` are those of all the entries, in order. */
  ghost predicate KeysAt(leaves: seq<Leaf>, at: seq<nat>, keys: seq<string>) {
    && |at| == |keys| && Ascending(at)
    && (forall k | 0 <= k < |at| :: at[k] < |leaves| && leaves[at[k]].KeyValue? && leaves[at[k]].key == keys[k])
    && (forall i: nat | i < |leaves| && leaves[i].KeyValue? :: i in at)
  }

  /** `leaves` are those of the root, in order. */
  ghost predicate DirectAt(root: Root, at: seq<nat>, leaves: seq<Leaf>) {
    && |at| == |leaves| && Ascending(at)
    && (forall k | 0 <= k < |at| :: at[k] < |root| && root[at[k]] == Direct(leaves[k]))
    && (forall i: nat | i < |root| && root[i].Direct? :: i in at)
  }

  lemma OnePlaceMore(at: seq<nat>, n: nat)
    requires Ascending(at) && forall k | 0 <= k < |at| :: at[k] < n
    ensures Ascending(at + [n]) && forall i: nat :: i in at + [n] <==> i in at || i == n
  {
  }

  lemma SectionsMore(root: Root, top: Top, at: seq<nat>, names: seq<string>)
    requires SectionsAt(root, at, names)
    ensures if top.Section? then SectionsAt(root + [top], at + [|root|], names + [top.name]) else SectionsAt(root + [top], at, names)
  {
    OnePlaceMore(at, |root|);
    hide Ascending;
  }

  lemma KeysMore(leaves: seq<Leaf>, leaf: Leaf, at: seq<nat>, keys: seq<string>)
    requires KeysAt(leaves, at, keys)
    ensures if leaf.KeyValue? then KeysAt(leaves + [leaf], at + [|leaves|], keys + [leaf.key]) else KeysAt(leaves + [leaf], at, keys)
  {
    OnePlaceMore(at, |leaves|);
    hide Ascending;
  }

  lemma DirectMore(root: Root, top: Top, at: seq<nat>, leaves: seq<Leaf>)
    requires DirectAt(root, at, leaves)
    ensures if top.Direct? then DirectAt(root + [top], at + [|root|], leaves + [top.leaf]) else DirectAt(root + [top], at, leaves)
  {
    OnePlaceMore(at, |root|);
    hide Ascending;
  }

  lemma NothingListed()
    ensures SectionsAt([], [], SectionNames([])) && KeysAt([], [], Keys([])) && DirectAt([], [], DirectLeaves([]))
  {
  }

  lemma {:induction false} SectionsListed(root: Root) returns (at: seq<nat>)
    ensures SectionsAt(root, at, SectionNames(root))
  {
    hide *;
    at := [];
    if root == [] {
      NothingListed();
    } else {
      var init, top := root[..|root| - 1], root[|root| - 1];
      assert root == init + [top];
      var before := SectionsListed(init);
      TopAppend(init, top, "");
      SectionsMore(init, top, before, SectionNames(init));
      at := if top.Section? then before + [|init|] else before;
    }
  }

  lemma {:induction false} KeysListed(leaves: seq<Leaf>) returns (at: seq<nat>)
    ensures KeysAt(leaves, at, Keys(leaves))
  {
    hide *;
    at := [];
    if leaves == [] {
      NothingListed();
    } else {
      var init, leaf := leaves[..|leaves| - 1], leaves[|leaves| - 1];
      assert leaves == init + [leaf];
      var before := KeysListed(init);
      KeysAppend(init, leaf);
      KeysMore(init, leaf, before, Keys(init));
      at := if leaf.KeyValue? then before + [|init|] else before;
    }
  }

  lemma KeysAppend(leaves: seq<Leaf>, leaf: Leaf)
    ensures Keys(leaves + [leaf]) == if leaf.KeyValue? then Keys(leaves) + [leaf.key] else Keys(leaves)
  {
    assert (leaves + [leaf])[..|leaves|] == leaves && Keys(leaves) + [] == Keys(leaves);
  }

  lemma {:induction false} DirectListed(root: Root) returns (at: seq<nat>)
    ensures DirectAt(root, at, DirectLeaves(root))
  {
    hide *;
    at := [];
    if root == [] {
      NothingListed();
    } else {
      var init, top := root[..|root| - 1], root[|root| - 1];
      assert root == init + [top];
      var before := DirectListed(init);
      TopAppend(init, top, "");
      DirectMore(init, top, before, DirectLeaves(init));
      at := if top.Direct? then before + [|init|] else before;
    }
  }

  /** `kept` are the lines that are not malformed, in order. */
  ghost predicate GoodAt(ls: seq<Line>, at: seq<nat>, kept: seq<Line>) {
    && |at| == |kept| && Ascending(at)
    && (forall k | 0 <= k < |at| :: at[k] < |ls| && !ls[at[k]].Malformed? && ls[at[k]] == kept[k])
    && (forall i: nat | i < |ls| && !ls[i].Malformed? :: i in at)
  }

  lemma GoodMore(ls: seq<Line>, l: Line, at: seq<nat>, kept: seq<Line>)
    requires GoodAt(ls, at, kept)
    ensures if l.Malformed? then GoodAt(ls + [l], at, kept) else GoodAt(ls + [l], at + [|ls|], kept + [l])
  {
    OnePlaceMore(at, |ls|);
    hide Ascending;
  }

  lemma GoodAppend(ls: seq<Line>, l: Line)
    ensures Good([]) == [] && Good(ls + [l]) == if l.Malformed? then Good(ls) else Good(ls) + [l]
  {
    assert (ls + [l])[..|ls|] == ls && Good(ls) + [] == Good(ls);
  }

  lemma {:induction false} GoodListed(ls: seq<Line>) returns (at: seq<nat>)
    ensures GoodAt(ls, at, Good(ls))
  {
    hide Good;
    at := [];
    if ls == [] {
      GoodAppend([], Blank);
    } else {
      var init, l := ls[..|ls| - 1], ls[|ls| - 1];
      assert ls == init + [l];
      var before := GoodListed(init);
      GoodAppend(init, l);
      GoodMore(init, l, before, Good(init));
      hide *;
      at := if l.Malformed? then before else before + [|init|];
    }
  }

  /** The dump of a text has, line by line, all lines of the text that are not malformed, and no others: what is a section, a
      pair, a blank line or a remark comes back as that. */
  lemma DumpKeepsLines(text: string) returns (at: seq<nat>)
    ensures GoodAt(Classified(text), at, Classified(Dump(Load(text))))
  {
    hide *;
    DumpReads(text);
    at := GoodListed(Classified(text));
  }

  /** The keys of the first section of the name, or of the root when there is no name. */
  ghost predicate ListsKeys(root: Root, section: string, keys: seq<string>) {
    if section == "" then
      exists at, leaves, places :: DirectAt(root, at, leaves) && KeysAt(leaves, places, keys)
    else
      || (exists i: nat, at :: SectionAt(root, section, i) && KeysAt(root[i].children, at, keys))
      || (keys == [] && forall i: nat :: !SectionAt(root, section, i))
  }

  lemma KeysOfListed(root: Root, section: string)
    ensures ListsKeys(root, section, match LeavesOf(root, section) case None => [] case Some(leaves) => Keys(leaves))
  {
    if section == "" {
      var at := DirectListed(root);
      var places := KeysListed(DirectLeaves(root));
    } else {
      var i := SectionFound(root, section);
      hide SectionLeaves;
      if SectionLeaves(root, section).Some? { var at := KeysListed(root[i].children); }
    }
  }

  /** The first section of a name. */
  ghost predicate SectionAt(root: Root, name: string, i: nat) {
    i < |root| && root[i].Section? && root[i].name == name && forall k | 0 <= k < i && root[k].Section? :: root[k].name != name
  }

  /** The first entry of a key. */
  ghost predicate KeyAt(leaves: seq<Leaf>, key: string, j: nat) {
    j < |leaves| && leaves[j].KeyValue? && leaves[j].key == key && forall k | 0 <= k < j && leaves[k].KeyValue? :: leaves[k].key != key
  }

  /** The first entry of a key that is in no section. */
  ghost predicate RootKeyAt(root: Root, key: string, i: nat) {
    && i < |root| && root[i].Direct? && root[i].leaf.KeyValue? && root[i].leaf.key == key
    && forall k | 0 <= k < i && root[k].Direct? && root[k].leaf.KeyValue? :: root[k].leaf.key != key
  }

  /** `v` is the value of the first entry of the key in the first section of the name, and "" when there is none. */
  ghost predicate Reads(root: Root, section: string, key: string, v: string) {
    if section == "" then
      || (exists i: nat :: RootKeyAt(root, key, i) && v == root[i].leaf.value)
      || (v == "" && forall i: nat :: !RootKeyAt(root, key, i))
    else
      || (exists i: nat, j: nat :: SectionAt(root, section, i) && KeyAt(root[i].children, key, j) && v == root[i].children[j].value)
      || (v == "" && forall i: nat, j: nat :: SectionAt(root, section, i) ==> !KeyAt(root[i].children, key, j))
  }

  lemma {:induction false} SectionFound(root: Root, name: string) returns (i: nat)
    ensures match SectionLeaves(root, name)
      case None => forall k | 0 <= k < |root| && root[k].Section? :: root[k].name != name
      case Some(leaves) => SectionAt(root, name, i) && root[i].children == leaves
  {
    i := 0;
    if root != [] {
      i := SectionFound(root[..|root| - 1], name);
      if SectionLeaves(root[..|root| - 1], name).None? { i := |root| - 1; }
    }
  }

  lemma {:induction false} KeyFound(leaves: seq<Leaf>, key: string) returns (j: nat)
    ensures match Value(leaves, key)
      case None => forall k | 0 <= k < |leaves| && leaves[k].KeyValue? :: leaves[k].key != key
      case Some(v) => KeyAt(leaves, key, j) && leaves[j].value == v
  {
    j := 0;
    if leaves != [] {
      j := KeyFound(leaves[..|leaves| - 1], key);
      if Value(leaves[..|leaves| - 1], key).None? { j := |leaves| - 1; }
    }
  }

  lemma {:induction false} RootKeyFound(root: Root, key: string) returns (i: nat)
    ensures match Value(DirectLeaves(root), key)
      case None => forall k | 0 <= k < |root| && root[k].Direct? && root[k].leaf.KeyValue? :: root[k].leaf.key != key
      case Some(v) => RootKeyAt(root, key, i) && root[i].leaf.value == v
  {
    i := 0;
    if root != [] {
      var init, last := root[..|root| - 1], root[|root| - 1];
      i := RootKeyFound(init, key);
      var before := DirectLeaves(init);
      if last.Direct? { assert (before + [last.leaf])[..|before|] == before; } else { assert before + [] == before; }
      if Value(before, key).None? { i := |root| - 1; }
    }
  }

  lemma LookupReads(root: Root, section: string, key: string)
    ensures Reads(root, section, key, Lookup(root, section, key))
  {
    if section == "" {
      var i := RootKeyFound(root, key);
      hide Value, DirectLeaves;
      if Value(DirectLeaves(root), key).Some? { assert RootKeyAt(root, key, i); }
    } else {
      var i := SectionFound(root, section);
      hide SectionLeaves;
      if SectionLeaves(root, section).Some? {
        var j := KeyFound(root[i].children, key);
        hide Value;
        if Value(root[i].children, key).Some? { assert SectionAt(root, section, i) && KeyAt(root[i].children, key, j); }
      }
    }
  }

  // ------------------------------------------------------------ lookups, by the lines of the text

  function HeadNames(ls: seq<Line>): seq<string> {
    if ls == [] then [] else HeadNames(ls[..|ls| - 1]) + if ls[|ls| - 1].Head? then [ls[|ls| - 1].name] else []
  }

  /** Line `j` comes before every head, or belongs to the first section of the name. */
  predicate Within(ls: seq<Line>, section: string, j: nat)
    requires j <= |ls|
  {
    var heads := HeadNames(ls[..j]);
    if section == "" then heads == [] else heads != [] && heads[|heads| - 1] == section && section !in heads[..|heads| - 1]
  }

  predicate EntryFor(ls: seq<Line>, section: string, key: string, j: nat) {
    j < |ls| && ls[j].Pair? && ls[j].key == key && Within(ls, section, j)
  }

  ghost predicate FirstEntry(ls: seq<Line>, section: string, key: string, j: nat) {
    EntryFor(ls, section, key, j) && forall k | 0 <= k < j :: !EntryFor(ls, section, key, k)
  }

  ghost predicate ReadsLines(ls: seq<Line>, section: string, key: string, v: string) {
    || (exists j: nat :: FirstEntry(ls, section, key, j) && v == ls[j].value)
    || (v == "" && forall j: nat :: !EntryFor(ls, section, key, j))
  }

  /** The value of a key in the leaves that a name stands for. */
  function ValueIn(root: Root, section: string, key: string): Option<string> {
    match LeavesOf(root, section)
    case None => None
    case Some(leaves) => Value(leaves, key)
  }

  lemma ValueAppend(leaves: seq<Leaf>, leaf: Leaf, key: string)
    ensures Value(leaves + [leaf], key) ==
      if Value(leaves, key).Some? then Value(leaves, key) else if leaf.KeyValue? && leaf.key == key then Some(leaf.value) else None
  {
    assert (leaves + [leaf])[..|leaves|] == leaves;
  }

  lemma TopAppend(root: Root, top: Top, name: string)
    ensures SectionNames(root + [top]) == if top.Section? then SectionNames(root) + [top.name] else SectionNames(root)
    ensures DirectLeaves(root + [top]) == if top.Direct? then DirectLeaves(root) + [top.leaf] else DirectLeaves(root)
    ensures SectionLeaves(root + [top], name) ==
      if SectionLeaves(root, name).Some? then SectionLeaves(root, name) else if top.Section? && top.name == name then Some(top.children) else None
  {
    assert (root + [top])[..|root|] == root;
  }

  lemma {:induction false} NamesFound(root: Root, name: string)
    ensures name in SectionNames(root) <==> SectionLeaves(root, name).Some?
  {
    if root != [] { NamesFound(root[..|root| - 1], name); }
  }

  /** What the bare tree looks like: entries of the root, then the sections of the heads. */
  predicate Shaped(root: Root, heads: seq<string>) {
    SectionNames(root) == heads && (heads != [] <==> root != [] && root[|root| - 1].Section?)
  }

  lemma HeadAdded(root: Root, heads: seq<string>, name: string, comment: string, section: string, key: string)
    requires Shaped(root, heads)
    ensures var root' := root + [Section(name, comment, [])]; Shaped(root', heads + [name]) && ValueIn(root', section, key) == ValueIn(root, section, key)
  {
    TopAppend(root, Section(name, comment, []), section);
    hide SectionNames, SectionLeaves, DirectLeaves;
  }

  lemma PairAdded(root: Root, heads: seq<string>, leaf: Leaf, section: string, key: string)
    requires Shaped(root, heads) && leaf.KeyValue?
    ensures Shaped(AddLeaf(root, leaf), heads)
    ensures ValueIn(AddLeaf(root, leaf), section, key) ==
      if ValueIn(root, section, key).None? && leaf.key == key
          && (if section == "" then heads == [] else heads != [] && heads[|heads| - 1] == section && section !in heads[..|heads| - 1])
      then Some(leaf.value) else ValueIn(root, section, key)
  {
    if heads == [] {
      TopAppend(root, Direct(leaf), section);
      NamesFound(root, section);
      ValueAppend(DirectLeaves(root), leaf, key);
    } else {
      var init, last := root[..|root| - 1], root[|root| - 1];
      assert root == init + [last];
      TopAppend(init, last, section);
      TopAppend(init, Section(last.name, last.comment, last.children + [leaf]), section);
      NamesFound(init, section);
      ValueAppend(last.children, leaf, key);
    }
    hide SectionNames, SectionLeaves, DirectLeaves, Value;
  }

  /** `v` is what the first line for the key, at `j`, says, if there is one. */
  ghost predicate Tells(ls: seq<Line>, section: string, key: string, v: Option<string>, j: nat) {
    match v
    case None => forall k: nat :: !EntryFor(ls, section, key, k)
    case Some(w) => FirstEntry(ls, section, key, j) && ls[j].value == w
  }

  lemma TellsMore(ls: seq<Line>, l: Line, section: string, key: string, v: Option<string>, j: nat)
    requires Tells(ls, section, key, v, j)
    ensures if v.None? && EntryFor(ls + [l], section, key, |ls|) then Tells(ls + [l], section, key, Some(l.value), |ls|)
            else Tells(ls + [l], section, key, v, j)
  {
    forall k: nat | k < |ls| ensures EntryFor(ls + [l], section, key, k) <==> EntryFor(ls, section, key, k) {
      assert (ls + [l])[..k] == ls[..k];
    }
    hide Within;
  }

  lemma OneLineRead(ls: seq<Line>, l: Line)
    ensures HeadNames(ls + [l]) == if l.Head? then HeadNames(ls) + [l.name] else HeadNames(ls)
    ensures l.Head? ==> BareLines(ls + [l]) == BareLines(ls) + [Section(l.name, l.comment, [])]
    ensures l.Pair? ==> BareLines(ls + [l]) == AddLeaf(BareLines(ls), KeyValue(l.key, l.value, l.comment))
    ensures !l.Head? && !l.Pair? ==> BareLines(ls + [l]) == BareLines(ls)
  {
    hide AddLeaf;
    assert (ls + [l])[..|ls|] == ls && HeadNames(ls) + [] == HeadNames(ls);
  }

  lemma NothingToTell(section: string, key: string)
    ensures Shaped(BareLines([]), HeadNames([])) && Tells([], section, key, ValueIn(BareLines([]), section, key), 0)
  {
  }

  lemma {:induction false} EntryFound(ls: seq<Line>, section: string, key: string) returns (j: nat)
    ensures Shaped(BareLines(ls), HeadNames(ls)) && Tells(ls, section, key, ValueIn(BareLines(ls), section, key), j)
  {
    hide *;
    if ls == [] {
      NothingToTell(section, key);
      j := 0;
    } else {
      var init, l := ls[..|ls| - 1], ls[|ls| - 1];
      assert ls == init + [l];
      j := EntryFound(init, section, key);
      OneLineRead(init, l);
      var was := ValueIn(BareLines(init), section, key);
      TellsMore(init, l, section, key, was, j);
      EntryLast(init, l, section, key);
      if l.Head? {
        HeadAdded(BareLines(init), HeadNames(init), l.name, l.comment, section, key);
      } else if l.Pair? {
        PairAdded(BareLines(init), HeadNames(init), KeyValue(l.key, l.value, l.comment), section, key);
        if was.None? && EntryFor(ls, section, key, |init|) { j := |init|; }
      }
    }
  }

  /** Whether the last line is one for the key. */
  lemma EntryLast(ls: seq<Line>, l: Line, section: string, key: string)
    ensures var heads := HeadNames(ls);
      var inside := if section == "" then heads == [] else heads != [] && heads[|heads| - 1] == section && section !in heads[..|heads| - 1];
      EntryFor(ls + [l], section, key, |ls|) <==> l.Pair? && l.key == key && inside
  {
    assert (ls + [l])[..|ls|] == ls && (ls + [l])[|ls|] == l;
    hide HeadNames;
  }

  /** A program gets the value of the first line with the key that belongs to the first section of the name, or, without a
      name, comes before every section; and "" when there is no such line. */
  lemma ReadsFromLines(text: string, section: string, key: string)
    ensures ReadsLines(Classified(text), section, key, Lookup(Load(text), section, key))
  {
    hide *;
    BareOfLoad(text);
    AnswerOfBare(Load(text), section, key);
    BareReads(Classified(text), section, key);
    AnswerIs(Load(text), section, key);
    AnswerIs(Bare(Load(text)), section, key);
  }

  lemma BareReads(ls: seq<Line>, section: string, key: string)
    ensures ReadsLines(ls, section, key, Lookup(BareLines(ls), section, key))
  {
    var j := EntryFound(ls, section, key);
    AnswerIs(BareLines(ls), section, key);
    hide Lookup, EntryFor, ValueIn, BareLines;
  }

  lemma AnswerIs(root: Root, section: string, key: string)
    ensures Answer(root, section, key).2 == ValueIn(root, section, key)
    ensures Lookup(root, section, key) == match ValueIn(root, section, key) case None => "" case Some(v) => v
  {
  }

  class IniParser {
    /** `root_`, which is NULL before the first load. */
    var root: Option<Root>

    constructor ()
      ensures root == None
    {
      root := None;
    }

    /** `LoadFromMem`. */
    method LoadFromMem(data: string)
      modifies this
      ensures root == Some(Load(data))
    {
      var tree: Root, strDiv := [], "";
      var rest := data;
      ghost var done: seq<Line> := [];
      assert [] + Classified(data) == Classified(data) && Classified("") == [];
      hide Classified, Classify, LoadLine, Find;
      while rest != ""
        invariant Loading(tree, strDiv) == LoadLines(done) && Classified(data) == done + Classified(rest)
        decreases |rest|
      {
        var i := Find(rest, '\n');
        var line := rest[..i];
        NextLine(rest);
        tree, strDiv := ReadLine(tree, strDiv, line);
        rest := if i < |rest| then rest[i + 1..] else "";
        LoadNext(done, Classify(line), Classified(rest));
        done := done + [Classify(line)];
      }
      assert done + [] == done;
      if strDiv != "" {
        tree := tree + [Direct(Div(strDiv))];
      }
      root := Some(tree);
    }

    /** The body of its loop. */
    method ReadLine(tree0: Root, strDiv0: string, line: string) returns (tree: Root, strDiv: string)
      ensures Loading(tree, strDiv) == LoadLine(Loading(tree0, strDiv0), Classify(line))
    {
      hide AddLeaf, Ltrim, Rtrim, Find, Entry;
      tree, strDiv := tree0, strDiv0;
      var content := Ltrim(line);
      assert content[..|content|] == content && content[|content|..] == "";
      if content == "" {
        strDiv := strDiv + "\n";
        return;
      }
      var comment := "";
      var pos := Find(content, '#');
      if pos < |content| {
        comment, content := content[pos..], content[..pos];
      }
      content := Rtrim(content);
      if content == "" {
        strDiv := strDiv + line + "\n";
        return;
      } else if strDiv != "" {
        tree, strDiv := AddLeaf(tree, Div(strDiv)), "";
      }
      tree := ReadEntry(tree, content, comment);
    }

    /** A line with a content: a section, a pair or nothing. */
    method ReadEntry(tree0: Root, content: string, comment: string) returns (tree: Root)
      requires content != ""
      ensures Loading(tree, "") == LoadLine(Loading(tree0, ""), Entry(content, comment))
    {
      hide AddLeaf, Trim, Find;
      tree := tree0;
      if content[0] == '[' {
        if content[|content| - 1] == ']' {
          tree := tree + [Section(Trim(content[1..|content| - 1]), comment, [])];
        }
      } else {
        var pos := Find(content, '=');
        if pos < |content| {
          tree := AddLeaf(tree, KeyValue(Trim(content[..pos]), Trim(content[pos + 1..]), comment));
        }
      }
    }

    /** `DumpString`. */
    method DumpString() returns (str: string)
      ensures str == if root.None? then "" else Dump(root.value)
    {
      str := "";
      if root.None? {
        return;
      }
      var tops := root.value;
      for i := 0 to |tops|
        invariant str == Dump(tops[..i])
      {
        assert tops[..i + 1][..i] == tops[..i];
        match tops[i]
        case Direct(leaf) => str := DumpLeaf(str, leaf);
        case Section(name, comment, children) =>
          str := NewLine(str) + ("[" + name + "]") + Tail(comment);
          str := DumpChildren(str, children);
      }
      assert tops[..|tops|] == tops;
    }

    method DumpChildren(head: string, children: seq<Leaf>) returns (str: string)
      ensures str == DumpLeaves(head, children)
    {
      str := head;
      for j := 0 to |children|
        invariant str == DumpLeaves(head, children[..j])
      {
        assert children[..j + 1][..j] == children[..j];
        str := DumpLeaf(str, children[j]);
      }
      assert children[..|children|] == children;
    }

    /** `GetSections`. */
    method GetSections() returns (ret: seq<string>)
      ensures ret == if root.None? then [] else SectionNames(root.value)
      ensures root.Some? ==> exists at :: SectionsAt(root.value, at, ret)
    {
      ret := [];
      if root.None? {
        return;
      }
      ghost var at := SectionsListed(root.value);
      hide SectionsAt;
      var tops := root.value;
      for i := 0 to |tops|
        invariant ret == SectionNames(tops[..i])
      {
        assert tops[..i + 1][..i] == tops[..i];
        if tops[i].Section? {
          ret := ret + [tops[i].name];
        }
      }
      assert tops[..|tops|] == tops;
    }

    /** `GetKeys`. */
    method GetKeys(section: string) returns (ret: seq<string>)
      ensures root.None? ==> ret == []
      ensures root.Some? ==> ret == (match LeavesOf(root.value, section) case None => [] case Some(leaves) => Keys(leaves))
      ensures root.Some? ==> ListsKeys(root.value, section, ret)
    {
      ret := [];
      if root.None? {
        return;
      }
      KeysOfListed(root.value, section);
      hide ListsKeys, LeavesOf, Keys;
      var leaves := LeavesOf(root.value, section);
      if leaves.None? {
        return;
      }
      var children := leaves.value;
      KeysNext(children, 0);
      for i := 0 to |children|
        invariant ret == Keys(children[..i])
      {
        KeysNext(children, i);
        if children[i].KeyValue? {
          ret := ret + [children[i].key];
        }
      }
      assert children[..|children|] == children;
    }

    /** `GetValue`: "" also stands for no value. */
    method GetValue(key: string, section: string) returns (ret: string)
      ensures root.None? ==> ret == ""
      ensures root.Some? ==> ret == Lookup(root.value, section, key) && Reads(root.value, section, key, ret)
    {
      if root.None? {
        return "";
      }
      LookupReads(root.value, section, key);
      hide Reads, LeavesOf;
      var leaves := LeavesOf(root.value, section);
      if leaves.None? {
        return "";
      }
      var children := leaves.value;
      for i := 0 to |children|
        invariant Value(children[..i], key) == None
      {
        assert children[..i + 1][..i] == children[..i];
        if children[i].KeyValue? && children[i].key == key {
          ValueFirst(children, i, key);
          return children[i].value;
        }
      }
      assert children[..|children|] == children;
      return "";
    }
  }

  lemma {:induction false} ValueFirst(leaves: seq<Leaf>, i: nat, key: string)
    requires i < |leaves| && Value(leaves[..i], key) == None && leaves[i].KeyValue? && leaves[i].key == key
    ensures Value(leaves, key) == Some(leaves[i].value)
  {
    var init := leaves[..|leaves| - 1];
    if i < |init| {
      assert init[..i] == leaves[..i];
      ValueFirst(init, i, key);
    }
  }

  lemma KeysNext(leaves: seq<Leaf>, i: nat)
    ensures Keys(leaves[..0]) == []
    ensures i < |leaves| ==> Keys(leaves[..i + 1]) == if leaves[i].KeyValue? then Keys(leaves[..i]) + [leaves[i].key] else Keys(leaves[..i])
  {
    if i < |leaves| {
      assert leaves[..i + 1] == leaves[..i] + [leaves[i]];
      hide Keys;
      KeysAppend(leaves[..i], leaves[i]);
    }
  }

  lemma LoadNext(done: seq<Line>, l: Line, next: seq<Line>)
    ensures LoadLines(done + [l]) == LoadLine(LoadLines(done), l)
    ensures done + ([l] + next) == done + [l] + next
  {
    hide LoadLine;
    var more := done + [l];
    assert more[..|more| - 1] == done && more[|more| - 1] == l && more != [];
  }

  lemma NextLine(text: string)
    requires text != ""
    ensures var i := Find(text, '\n');
      Classified(text) == [Classify(text[..i])] + Classified(if i < |text| then text[i + 1..] else "")
  {
    hide *;
    var i := Find(text, '\n');
    var rest := if i < |text| then text[i + 1..] else "";
    LineFirst(text, i, rest);
    forall k | 0 <= k < |Lines(text)| ensures Classified(text)[k] == ([Classify(text[..i])] + Classified(rest))[k] {
      assert Lines(text)[k] == if k == 0 then text[..i] else Lines(rest)[k - 1];
    }
  }
}
