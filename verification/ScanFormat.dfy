/**
 * The text of .signals and .args files: how one entry is printed, and that the scripts' regular expressions
 * read it back.
 */
module ScanFormat {
  import opened Basics
  import opened Pattern

  /** A tagged value without blanks, a tagged text, or text without a tag at the end of the block. */
  datatype Field = Word(tag: string) | Text(tag: string) | Tail

  datatype Format = Format(tag: string, fields: seq<Field>)

  const SIGNALS: Format := Format("SIGNAL", [Word("RETURNS"), Tail])

  const ARGS: Format := Format("ARG",
    [Word("TYPE"), Text("RANGE"), Word("FLAGS"), Text("NICK"), Text("BLURB"), Text("DEFAULT")])

  datatype Entry = Entry(name: string, values: seq<string>)

  function Open(tag: string): string {
    "<" + tag + ">"
  }

  function Close(tag: string): string {
    "</" + tag + ">\n"
  }

  function NameLine(owner: string, name: string): string {
    "<NAME>" + owner + "::" + name + "</NAME>\n"
  }

  function FieldText(fields: seq<Field>, values: seq<string>): string {
    if fields == [] || values == [] then ""
    else
      var rest := FieldText(fields[1..], values[1..]);
      match fields[0]
      case Word(tag) => Open(tag) + values[0] + Close(tag) + rest
      case Text(tag) => Open(tag) + values[0] + Close(tag) + rest
      case Tail => values[0] + rest
  }

  function Body(f: Format, owner: string, e: Entry): string {
    NameLine(owner, e.name) + FieldText(f.fields, e.values)
  }

  function Block(f: Format, body: string): string {
    Open(f.tag) + "\n" + body + Close(f.tag)
  }

  function BlockPattern(f: Format): Pattern {
    Lit(Open(f.tag) + "\n", Lazy(Lit(Close(f.tag), End)))
  }

  const NAME_PATTERN: Pattern := Lit("<NAME>", Greedy(true, Lit("::", Greedy(true, Lit("</NAME>", End)))))

  function RecordPattern(fields: seq<Field>): Pattern {
    if fields == [] then End
    else
      match fields[0]
      case Word(tag) => Lit(Open(tag), Greedy(true, Lit(Close(tag), RecordPattern(fields[1..]))))
      case Text(tag) => Lit(Open(tag), Lazy(Lit(Close(tag), RecordPattern(fields[1..]))))
      case Tail => Greedy(false, RecordPattern(fields[1..]))
  }

  ghost predicate Occurs(t: string, s: string) {
    exists i :: 0 <= i <= |s| && t <= s[i..]
  }

  ghost predicate IsTag(t: string) {
    IsWord(t) && t != "" && t[0] != '/' && forall i :: 0 <= i < |t| ==> t[i] != '<'
  }

  /** The fields begin with a word, their tags differ from the block's, and only the last may be untagged. */
  ghost predicate WellFormed(f: Format) {
    && IsTag(f.tag) && f.tag[0] != 'N'
    && f.fields != [] && f.fields[0].Word? && f.fields[0].tag != "NAME"
    && forall i :: 0 <= i < |f.fields| ==>
      if f.fields[i].Tail? then i == |f.fields| - 1
      else IsTag(f.fields[i].tag) && f.fields[i].tag[0] != f.tag[0]
  }

  lemma SignalsWellFormed()
    ensures WellFormed(SIGNALS)
  {
    assert IsTag("SIGNAL") && IsTag("RETURNS");
  }

  lemma ArgsTags()
    ensures IsTag("ARG") && IsTag("TYPE") && IsTag("RANGE") && IsTag("FLAGS")
    ensures IsTag("NICK") && IsTag("BLURB") && IsTag("DEFAULT")
  {
  }

  lemma ArgsWellFormed()
    ensures WellFormed(ARGS)
  {
    hide IsTag;
    ArgsTags();
  }

  /** The name holds no "::", and none that it would complete together with the separator. */
  ghost predicate CleanName(name: string) {
    IsWord(name) && !Occurs("::", name) && (name != "" ==> name[0] != ':')
  }

  /** The value has no blanks where the field takes none, and no closing line that could end it early. */
  ghost predicate CleanValue(f: Format, field: Field, value: string) {
    match field
    case Word(_) => IsWord(value)
    case Text(tag) => !Occurs(Close(tag), value) && !Occurs(Close(f.tag), value)
    case Tail => !Occurs(Close(f.tag), value)
  }

  ghost predicate CleanEntry(f: Format, owner: string, e: Entry) {
    && IsWord(owner) && CleanName(e.name)
    && |e.values| == |f.fields|
    && forall i :: 0 <= i < |f.fields| ==> CleanValue(f, f.fields[i], e.values[i])
  }

  // ---- Closing lines -------------------------------------------------------------------------------------

  /** A closing line: one '<', at its front, and one blank, the line end. */
  ghost predicate IsClose(c: string) {
    && |c| >= 3 && c[..2] == "</" && c[|c| - 1] == '\n'
    && (forall i :: 0 < i < |c| ==> c[i] != '<')
    && IsWord(c[..|c| - 1])
  }

  lemma CloseShape(tag: string)
    requires IsTag(tag)
    ensures IsClose(Close(tag))
  {
    var c := Close(tag);
    assert c[..2] == "</";
    assert c[..|c| - 1] == "</" + tag + ">";
  }

  /** The line c begins at no position of t, when s follows t. */
  ghost predicate Clear(c: string, t: string, s: string) {
    forall k :: 0 <= k < |t| ==> !(c <= (t + s)[k..])
  }

  lemma ClearConcat(c: string, a: string, b: string, s: string)
    requires Clear(c, a, b + s) && Clear(c, b, s)
    ensures Clear(c, a + b, s)
  {
    assert a + (b + s) == (a + b) + s;
    forall k | 0 <= k < |a + b| ensures !(c <= ((a + b) + s)[k..]) {
      if k >= |a| {
        assert ((a + b) + s)[k..] == (b + s)[k - |a|..];
      }
    }
  }

  /** A text without the line, up to the next '<'. */
  lemma ClearText(c: string, t: string, s: string)
    requires IsClose(c) && !Occurs(c, t) && s != "" && s[0] == '<'
    ensures Clear(c, t, s)
  {
    forall k | 0 <= k < |t| ensures !(c <= (t + s)[k..]) {
      var x := (t + s)[k..];
      if |c| <= |t| - k {
        assert !(c <= t[k..]);
        assert t[k..][..|c|] == x[..|c|];
      } else {
        assert x[|t| - k] == '<';
      }
    }
  }

  lemma WordHasNoLine(c: string, w: string)
    requires IsClose(c) && IsWord(w)
    ensures !Occurs(c, w)
  {
    forall i | 0 <= i <= |w| ensures !(c <= w[i..]) {
      if |c| <= |w| - i {
        assert w[i..][|c| - 1] == w[i + |c| - 1];
      }
    }
  }

  /** A template text: at most its first character is '<', and the line does not begin there. */
  lemma ClearTemplate(c: string, t: string, s: string)
    requires IsClose(c) && t != "" && !(c <= t + s)
    requires forall i :: 0 < i < |t| ==> t[i] != '<'
    ensures Clear(c, t, s)
  {
    assert (t + s)[0..] == t + s;
    forall k | 0 < k < |t| ensures !(c <= (t + s)[k..]) {
      assert (t + s)[k..][0] == t[k];
    }
  }

  // ---- No block ends inside its body ---------------------------------------------------------------------

  lemma OpenClear(f: Format, tag: string, s: string)
    requires WellFormed(f) && IsTag(tag)
    ensures Clear(Close(f.tag), Open(tag), s)
  {
    CloseShape(f.tag);
    assert (Open(tag) + s)[1] == tag[0] && Close(f.tag)[1] == '/';
    ClearTemplate(Close(f.tag), Open(tag), s);
  }

  lemma CloseClear(f: Format, tag: string, s: string)
    requires WellFormed(f) && IsTag(tag) && tag[0] != f.tag[0]
    ensures Clear(Close(f.tag), Close(tag), s)
  {
    CloseShape(f.tag);
    CloseShape(tag);
    assert (Close(tag) + s)[2] == tag[0] && Close(f.tag)[2] == f.tag[0];
    ClearTemplate(Close(f.tag), Close(tag), s);
  }

  lemma TaggedClear(f: Format, tag: string, value: string, s: string)
    requires WellFormed(f) && IsTag(tag) && tag[0] != f.tag[0] && !Occurs(Close(f.tag), value)
    ensures Clear(Close(f.tag), Open(tag) + value + Close(tag), s)
  {
    var c := Close(f.tag);
    CloseShape(f.tag);
    CloseClear(f, tag, s);
    ClearText(c, value, Close(tag) + s);
    OpenClear(f, tag, value + (Close(tag) + s));
    ClearConcat(c, value, Close(tag), s);
    assert value + (Close(tag) + s) == (value + Close(tag)) + s;
    ClearConcat(c, Open(tag), value + Close(tag), s);
    assert Open(tag) + (value + Close(tag)) == Open(tag) + value + Close(tag);
  }

  ghost predicate CleanFields(f: Format, fields: seq<Field>, values: seq<string>) {
    && |values| == |fields| && f.tag != ""
    && forall i :: 0 <= i < |fields| ==>
      && CleanValue(f, fields[i], values[i])
      && if fields[i].Tail? then i == |fields| - 1 else IsTag(fields[i].tag) && fields[i].tag[0] != f.tag[0]
  }

  lemma CleanRest(f: Format, fields: seq<Field>, values: seq<string>)
    requires CleanFields(f, fields, values) && fields != []
    ensures CleanFields(f, fields[1..], values[1..])
  {
  }

  lemma {:induction false} FieldsClear(f: Format, fields: seq<Field>, values: seq<string>, s: string)
    requires WellFormed(f) && CleanFields(f, fields, values) && s != "" && s[0] == '<'
    ensures Clear(Close(f.tag), FieldText(fields, values), s)
  {
    CloseShape(f.tag);
    if fields != [] {
      var rest := FieldText(fields[1..], values[1..]);
      CleanRest(f, fields, values);
      FieldsClear(f, fields[1..], values[1..], s);
      match fields[0]
      case Word(tag) =>
        WordHasNoLine(Close(f.tag), values[0]);
        TaggedClear(f, tag, values[0], rest + s);
        ClearConcat(Close(f.tag), Open(tag) + values[0] + Close(tag), rest, s);
      case Text(tag) =>
        TaggedClear(f, tag, values[0], rest + s);
        ClearConcat(Close(f.tag), Open(tag) + values[0] + Close(tag), rest, s);
      case Tail =>
        assert rest == "";
        assert values[0] + rest == values[0];
        ClearText(Close(f.tag), values[0], s);
    }
  }

  lemma NameLineClear(f: Format, owner: string, name: string, s: string)
    requires WellFormed(f) && IsWord(owner) && IsWord(name)
    ensures Clear(Close(f.tag), NameLine(owner, name), s)
  {
    var value := owner + "::" + name;
    CloseShape(f.tag);
    WordHasNoLine(Close(f.tag), value);
    assert IsTag("NAME");
    TaggedClear(f, "NAME", value, s);
    assert Open("NAME") == "<NAME>" && Close("NAME") == "</NAME>\n";
    assert Open("NAME") + value + Close("NAME") == NameLine(owner, name);
  }

  /** The lazy group of the block pattern can only end at the block's own end. */
  lemma BodyClear(f: Format, owner: string, e: Entry, s: string)
    requires WellFormed(f) && CleanEntry(f, owner, e) && s != "" && s[0] == '<'
    ensures Clear(Close(f.tag), Body(f, owner, e), s)
  {
    assert CleanFields(f, f.fields, e.values);
    FieldsClear(f, f.fields, e.values, s);
    NameLineClear(f, owner, e.name, FieldText(f.fields, e.values) + s);
    ClearConcat(Close(f.tag), NameLine(owner, e.name), FieldText(f.fields, e.values), s);
  }

  lemma BlockRun(f: Format, body: string, s: string)
    requires Clear(Close(f.tag), body, Close(f.tag) + s)
    ensures Run(BlockPattern(f), Block(f, body) + s) == Some(Match([body], s))
  {
    hide Run, Shortest, Open, Close, Clear;
    var c := Close(f.tag);
    var x := body + (c + s);
    BlockText(f, body, s);
    RunLit(Open(f.tag) + "\n", Lazy(Lit(c, End)), x);
    RunClosing(f, body, s);
  }

  lemma BlockText(f: Format, body: string, s: string)
    ensures Block(f, body) + s == (Open(f.tag) + "\n") + (body + (Close(f.tag) + s))
  {
    hide Open, Close;
    FiveParts(Open(f.tag), "\n", body, Close(f.tag), s);
  }

  lemma FiveParts(a: string, b: string, c: string, d: string, e: string)
    ensures (a + b + c + d) + e == (a + b) + (c + (d + e))
  {
  }

  lemma RunClosing(f: Format, body: string, s: string)
    requires Clear(Close(f.tag), body, Close(f.tag) + s)
    ensures Run(Lazy(Lit(Close(f.tag), End)), body + (Close(f.tag) + s)) == Some(Match([body], s))
  {
    hide Close;
    var c := Close(f.tag);
    var x := body + (c + s);
    assert x[|body|..] == c + s;
    RunLit(c, End, s);
    assert x[..|body|] == body;
    ShortestAt(Lit(c, End), x, 0, |body|);
    assert [body] + [] == [body];
  }

  // ---- The patterns read an entry back -------------------------------------------------------------------

  /** A greedy word group before a closing text ends at the closing text. */
  lemma WordGroup(v: string, c: string, p: Pattern, s: string)
    requires IsWord(v) && Run(p, s).Some?
    requires forall i :: 0 < i <= Extent(true, c + s) && i < |c + s| ==> (c + s)[i] != '<'
    requires c != "" && c[0] == '<'
    ensures Run(Greedy(true, Lit(c, p)), v + (c + s))
         == Some(Match([v] + Run(p, s).value.groups, Run(p, s).value.rest))
  {
    var x := v + (c + s);
    ExtentReaches(v, c + s);
    assert x[|v|..] == c + s;
    RunLit(c, p, s);
    forall j | |v| < j <= Extent(true, x) ensures Run(Lit(c, p), x[j..]).None? {
      if j < |x| {
        assert x[j..][0] == (c + s)[j - |v|];
      }
    }
    assert x[..|v|] == v;
    LongestAt(Lit(c, p), x, Extent(true, x), |v|);
  }

  lemma LineExtent(c: string, s: string)
    requires IsClose(c)
    ensures Extent(true, c + s) == |c| - 1
  {
    var w := c[..|c| - 1];
    assert c + s == w + (['\n'] + s);
    ExtentReaches(w, ['\n'] + s);
  }

  /** A lazy group before a closing line that the text does not hold ends at that line. */
  lemma TextGroup(v: string, c: string, p: Pattern, s: string)
    requires IsClose(c) && !Occurs(c, v) && Run(p, s).Some?
    ensures Run(Lazy(Lit(c, p)), v + (c + s))
         == Some(Match([v] + Run(p, s).value.groups, Run(p, s).value.rest))
  {
    var x := v + (c + s);
    ClearText(c, v, c + s);
    assert x[|v|..] == c + s;
    RunLit(c, p, s);
    assert x[..|v|] == v;
    ShortestAt(Lit(c, p), x, 0, |v|);
  }

  lemma TailGroup(v: string)
    ensures Run(Greedy(false, End), v) == Some(Match([v], ""))
  {
    assert v[..|v|] == v && v[|v|..] == "";
    assert [v] + [] == [v];
  }

  /** The record pattern gives the values back. */
  lemma {:induction false} RecordRun(f: Format, fields: seq<Field>, values: seq<string>)
    requires CleanFields(f, fields, values)
    ensures Run(RecordPattern(fields), FieldText(fields, values)) == Some(Match(values, ""))
  {
    if fields != [] {
      var rest := FieldText(fields[1..], values[1..]);
      var p := RecordPattern(fields[1..]);
      CleanRest(f, fields, values);
      RecordRun(f, fields[1..], values[1..]);
      assert [values[0]] + values[1..] == values;
      match fields[0]
      case Word(tag) =>
        CloseShape(tag);
        TaggedText(tag, values[0], rest);
        LineExtent(Close(tag), rest);
        WordGroup(values[0], Close(tag), p, rest);
        RunLit(Open(tag), Greedy(true, Lit(Close(tag), p)), values[0] + (Close(tag) + rest));
      case Text(tag) =>
        CloseShape(tag);
        TaggedText(tag, values[0], rest);
        TextGroup(values[0], Close(tag), p, rest);
        RunLit(Open(tag), Lazy(Lit(Close(tag), p)), values[0] + (Close(tag) + rest));
      case Tail =>
        TailGroup(values[0]);
        assert values[0] + rest == values[0];
    }
  }

  lemma TaggedText(tag: string, value: string, rest: string)
    ensures Open(tag) + value + Close(tag) + rest == Open(tag) + (value + (Close(tag) + rest))
  {
  }

  /** The end of the first line, and what follows it. */
  ghost predicate NameEnd(tail: string) {
    7 < |tail| && tail[..7] == "</NAME>" && tail[7] == '\n'
  }

  lemma NameEndChars(tail: string)
    requires NameEnd(tail)
    ensures tail[0] == '<' && IsWord("::") && IsWord(tail[..7])
    ensures forall i :: 0 <= i < 8 ==> tail[i] != ':'
  {
    assert forall i :: 0 <= i < 7 ==> tail[i] == "</NAME>"[i];
  }

  lemma NoPairIn(name: string, tail: string, i: nat)
    requires CleanName(name) && NameEnd(tail) && i <= |name| + 7
    ensures !("::" <= (name + tail)[i..])
    ensures (name + tail)[0] != ':'
  {
    var y := name + tail;
    NameEndChars(tail);
    if i + 1 < |name| {
      assert !("::" <= name[i..]);
      assert y[i..][0] == name[i..][0] && y[i..][1] == name[i..][1];
    } else if i < |name| {
      assert y[i..][1] == tail[0];
    } else {
      assert y[i..][0] == tail[i - |name|];
    }
    assert y[0] == if name == "" then tail[0] else name[0];
  }

  /** The last "::" of the line is the separator. */
  lemma NoLaterSeparator(owner: string, name: string, tail: string, j: nat)
    requires CleanName(name) && NameEnd(tail) && |owner| < j <= |owner| + 2 + |name| + 7
    ensures !("::" <= (owner + ("::" + (name + tail)))[j..])
  {
    var y := name + tail;
    var x := owner + ("::" + y);
    if j == |owner| + 1 {
      NoPairIn(name, tail, 0);
      assert x[j..][1] == y[0];
    } else {
      var i := j - |owner| - 2;
      NoPairIn(name, tail, i);
      assert x[j..] == y[i..];
    }
  }

  /** The owner's group ends at the separator. */
  lemma OwnerGroup(owner: string, name: string, tail: string, q: Pattern)
    requires IsWord(owner) && CleanName(name) && NameEnd(tail) && Run(q, name + tail).Some?
    ensures Run(Greedy(true, Lit("::", q)), owner + ("::" + (name + tail)))
         == Some(Match([owner] + Run(q, name + tail).value.groups, Run(q, name + tail).value.rest))
  {
    hide Extent, Longest;
    var p := Lit("::", q);
    var x := owner + ("::" + (name + tail));
    RunLit("::", q, name + tail);
    assert x[|owner|..] == "::" + (name + tail) && x[..|owner|] == owner;
    NameEndChars(tail);
    OwnerExtent(owner, "::", name, tail);
    forall j | |owner| < j <= Extent(true, x) ensures Run(p, x[j..]).None? {
      NoLaterSeparator(owner, name, tail, j);
    }
    LongestAt(p, x, Extent(true, x), |owner|);
  }

  /** The name pattern splits the first line at the separator. */
  lemma NameRun(owner: string, name: string, s: string)
    requires IsWord(owner) && CleanName(name)
    ensures Run(NAME_PATTERN, NameLine(owner, name) + s) == Some(Match([owner, name], "\n" + s))
  {
    hide Run, Extent;
    var q := Greedy(true, Lit("</NAME>", End));
    var tail := "</NAME>" + ("\n" + s);
    var x := owner + ("::" + (name + tail));
    NameText(owner, name, s);
    RunLit("<NAME>", Greedy(true, Lit("::", q)), x);
    NameGroup(name, "\n" + s);
    NameTail(s);
    OwnerGroup(owner, name, tail, q);
    assert [owner] + [name] == [owner, name];
  }

  lemma NameTail(s: string)
    ensures NameEnd("</NAME>" + ("\n" + s))
  {
    assert ("</NAME>" + ("\n" + s))[..7] == "</NAME>";
  }

  lemma NameText(owner: string, name: string, s: string)
    ensures NameLine(owner, name) + s == "<NAME>" + (owner + ("::" + (name + ("</NAME>" + ("\n" + s)))))
  {
    SixParts("<NAME>", owner, "::", name, "</NAME>\n", s);
    assert "</NAME>\n" + s == "</NAME>" + ("\n" + s);
  }

  lemma SixParts(a: string, b: string, c: string, d: string, e: string, g: string)
    ensures (a + b + c + d + e) + g == a + (b + (c + (d + (e + g))))
  {
  }

  lemma NameGroup(name: string, end: string)
    requires IsWord(name) && end != "" && end[0] == '\n'
    ensures Run(Greedy(true, Lit("</NAME>", End)), name + ("</NAME>" + end)) == Some(Match([name], end))
  {
    ExtentReaches("</NAME>", end);
    WordGroup(name, "</NAME>", End, end);
    assert [name] + [] == [name];
  }

  lemma FourWords(a: string, b: string, c: string, d: string, s: string)
    requires IsWord(a) && IsWord(b) && IsWord(c) && IsWord(d)
    ensures Extent(true, a + (b + (c + (d + s)))) == |a| + |b| + |c| + |d| + Extent(true, s)
  {
    ExtentReaches(a, b + (c + (d + s)));
    ExtentReaches(b, c + (d + s));
    ExtentReaches(c, d + s);
    ExtentReaches(d, s);
  }

  lemma OwnerExtent(owner: string, separator: string, name: string, tail: string)
    requires IsWord(owner) && IsWord(separator) && IsWord(name) && NameEnd(tail)
    ensures Extent(true, owner + (separator + (name + tail))) == |owner| + |separator| + |name| + 7
  {
    var end := tail[7..];
    NameEndChars(tail);
    assert tail == tail[..7] + end;
    FourWords(owner, separator, name, tail[..7], end);
  }

  /** Where a word ends is settled by the first blank. */
  lemma SameWord(v: string, w: string, s: string, t: string)
    requires IsWord(v) && IsWord(w)
    requires v + "\n" + s == w + "\n" + t
    ensures v == w
  {
    assert v + ("\n" + s) == v + "\n" + s && w + ("\n" + t) == w + "\n" + t;
    ExtentReaches(v, "\n" + s);
    ExtentReaches(w, "\n" + t);
    assert v == (v + "\n" + s)[..|v|];
  }

  /** Two closing tags at the end of the same text are the same tag. */
  lemma SameClosing(v: string, a: string, w: string, b: string)
    requires IsTag(a) && IsTag(b)
    requires v + ("</" + a + ">") == w + ("</" + b + ">")
    ensures a == b
  {
    var x := v + ("</" + a + ">");
    assert x[|v|] == '<' && x[|w|] == '<';
    assert forall i :: |v| < i < |x| ==> x[i] == ("</" + a + ">")[i - |v|];
    assert forall i :: |w| < i < |x| ==> x[i] == ("</" + b + ">")[i - |w|];
    assert |v| == |w|;
    assert a == x[|v| + 2..|x| - 1] == b;
  }

  /** A record cannot be read from inside the first line: its first word would have to end that line. */
  lemma NoRecordInLine(t: string, p: Pattern, v: string, s: string)
    requires IsTag(t) && t != "NAME" && IsWord(v)
    ensures Run(Lit(Open(t), Greedy(true, Lit(Close(t), p))), v + "</NAME>\n" + s).None?
  {
    var closing := Lit(Close(t), p);
    var q := Lit(Open(t), Greedy(true, closing));
    var x := v + "</NAME>\n" + s;
    RunSound(q, x);
    if Run(q, x).Some? {
      var m := Run(q, x).value;
      var r := Filled(p, m.groups[1..]);
      assert Filled(closing, m.groups[1..]) == Close(t) + r;
      assert Filled(q, m.groups) == Open(t) + (m.groups[0] + (Close(t) + r));
      NotTheRecord(t, v, s, m.groups[0], r + m.rest);
      Regroup(Open(t), m.groups[0], Close(t), r, m.rest);
    }
  }

  lemma Regroup(a: string, b: string, c: string, d: string, e: string)
    ensures (a + (b + (c + d))) + e == a + (b + (c + (d + e)))
  {
  }

  lemma NotTheRecord(t: string, v: string, s: string, g: string, r: string)
    requires IsTag(t) && t != "NAME" && IsWord(v) && IsWord(g)
    ensures v + "</NAME>\n" + s != Open(t) + (g + (Close(t) + r))
  {
    var a := v + "</NAME>";
    var c := "</" + t + ">";
    var b := Open(t) + g + c;
    assert IsTag("NAME");
    assert v + ("</" + "NAME" + ">") == a;
    assert Open(t) + g + c == (Open(t) + g) + c;
    if a == b {
      SameClosing(v, "NAME", Open(t) + g, t);
    }
    assert v + "</NAME>\n" + s == a + "\n" + s;
    assert Open(t) + (g + (Close(t) + r)) == b + "\n" + r;
    if v + "</NAME>\n" + s == Open(t) + (g + (Close(t) + r)) {
      SameWord(a, b, s, r);
    }
  }

  /** The record pattern skips the first line and gives the values back. */
  lemma RecordSearch(f: Format, owner: string, e: Entry)
    requires WellFormed(f) && CleanEntry(f, owner, e)
    ensures Search(RecordPattern(f.fields), Body(f, owner, e))
         == Some(Found(|NameLine(owner, e.name)|, Match(e.values, "")))
  {
    var line := NameLine(owner, e.name);
    var text := FieldText(f.fields, e.values);
    var p := RecordPattern(f.fields);
    assert CleanFields(f, f.fields, e.values);
    RecordRun(f, f.fields, e.values);
    assert Body(f, owner, e)[|line|..] == text;
    forall j | 0 <= j < |line| ensures Run(p, Body(f, owner, e)[j..]).None? {
      NoRecordAt(f, owner, e.name, text, j);
    }
    SearchAt(p, Body(f, owner, e), |line|);
  }

  lemma NoRecordAt(f: Format, owner: string, name: string, text: string, j: nat)
    requires WellFormed(f) && IsWord(owner) && IsWord(name) && j < |NameLine(owner, name)|
    ensures Run(RecordPattern(f.fields), (NameLine(owner, name) + text)[j..]).None?
  {
    var v := "<NAME>" + owner + "::" + name;
    var x := NameLine(owner, name) + text;
    assert x == v + "</NAME>\n" + text;
    if j <= |v| {
      assert x[j..] == v[j..] + "</NAME>\n" + text;
      NoRecordInLine(f.fields[0].tag, RecordPattern(f.fields[1..]), v[j..], text);
    } else {
      assert x[j..][0] == "</NAME>\n"[j - |v|];
    }
  }

  lemma NameSearch(f: Format, owner: string, e: Entry)
    requires CleanEntry(f, owner, e)
    ensures Search(NAME_PATTERN, Body(f, owner, e))
         == Some(Found(0, Match([owner, e.name], "\n" + FieldText(f.fields, e.values))))
  {
    NameRun(owner, e.name, FieldText(f.fields, e.values));
    assert Body(f, owner, e)[0..] == Body(f, owner, e);
    SearchAt(NAME_PATTERN, Body(f, owner, e), 0);
  }

  /** A file: the blocks with an empty line between them, or just a line end. */
  function Join(separator: string, lines: seq<string>): string {
    if lines == [] then ""
    else if |lines| == 1 then lines[0]
    else lines[0] + separator + Join(separator, lines[1..])
  }

  function Blocks(f: Format, bodies: seq<string>): seq<string> {
    seq(|bodies|, i requires 0 <= i < |bodies| => Block(f, bodies[i]))
  }

  function FileText(f: Format, bodies: seq<string>): string {
    Join("\n", Blocks(f, bodies)) + "\n"
  }

  ghost predicate ClearBodies(f: Format, bodies: seq<string>) {
    forall i, s: string :: 0 <= i < |bodies| && s != "" && s[0] == '<' ==> Clear(Close(f.tag), bodies[i], s)
  }

  lemma FindHere(p: Pattern, s: string, m: Match)
    requires Run(p, s) == Some(m) && |m.rest| < |s|
    ensures FindAll(p, s) == [m.groups] + FindAll(p, m.rest)
  {
  }

  /** A line end before the next block is passed over. */
  lemma FindSkips(f: Format, s: string)
    ensures FindAll(BlockPattern(f), "\n" + s) == FindAll(BlockPattern(f), s)
  {
    var p := BlockPattern(f);
    assert ("\n" + s)[1..] == s && ("\n" + s)[0] == '\n';
    assert (Open(f.tag) + "\n")[0] == '<';
    assert Run(p, "\n" + s).None?;
    SearchShrinks(p, s);
  }

  lemma FileStep(f: Format, bodies: seq<string>)
    requires bodies != []
    ensures FileText(f, bodies)
         == Block(f, bodies[0]) + "\n" + if |bodies| == 1 then "" else FileText(f, bodies[1..])
  {
    assert Blocks(f, bodies)[1..] == Blocks(f, bodies[1..]);
  }

  lemma FirstFound(f: Format, body: string, s: string)
    requires Clear(Close(f.tag), body, Close(f.tag) + ("\n" + s))
    ensures FindAll(BlockPattern(f), Block(f, body) + "\n" + s) == [[body]] + FindAll(BlockPattern(f), s)
  {
    hide FindAll, Clear, Run;
    var x := Block(f, body) + ("\n" + s);
    assert Block(f, body) + "\n" + s == x;
    BlockRun(f, body, "\n" + s);
    FindHere(BlockPattern(f), x, Match([body], "\n" + s));
    FindSkips(f, s);
  }

  /** Each text as the one group of a match. */
  function Singles(bodies: seq<string>): (r: seq<seq<string>>)
    ensures |r| == |bodies|
  {
    seq(|bodies|, i requires 0 <= i < |bodies| => [bodies[i]])
  }

  lemma SinglesFront(bodies: seq<string>)
    requires bodies != []
    ensures Singles(bodies) == [[bodies[0]]] + Singles(bodies[1..])
  {
    SameElements(Singles(bodies), [[bodies[0]]] + Singles(bodies[1..]));
  }

  lemma NothingFound(f: Format)
    ensures FindAll(BlockPattern(f), "") == [] && FindAll(BlockPattern(f), FileText(f, [])) == []
  {
    FindSkips(f, "");
    assert FileText(f, []) == "\n" + "";
  }

  lemma ClearFirst(f: Format, bodies: seq<string>, more: string)
    requires ClearBodies(f, bodies) && bodies != []
    ensures Clear(Close(f.tag), bodies[0], Close(f.tag) + ("\n" + more))
    ensures ClearBodies(f, bodies[1..])
  {
    hide Clear;
    var close := Close(f.tag) + ("\n" + more);
    assert close[0] == '<';
  }

  /** findall gives back the bodies of the blocks. */
  lemma {:induction false} BlocksFound(f: Format, bodies: seq<string>)
    requires ClearBodies(f, bodies)
    ensures FindAll(BlockPattern(f), FileText(f, bodies)) == Singles(bodies)
  {
    hide FindAll, FileText, BlockPattern, Block, Clear, ClearBodies, Close;
    NothingFound(f);
    if bodies != [] {
      var more := if |bodies| == 1 then "" else FileText(f, bodies[1..]);
      FileStep(f, bodies);
      ClearFirst(f, bodies, more);
      FirstFound(f, bodies[0], more);
      SinglesFront(bodies);
      if |bodies| > 1 {
        BlocksFound(f, bodies[1..]);
      }
    }
  }

  // ---- The printed text ----------------------------------------------------------------------------------

  /** The text of the fields from field k on. */
  lemma FieldAt(fields: seq<Field>, values: seq<string>, k: nat)
    requires |values| == |fields| && k <= |fields|
    ensures FieldText(fields[k..], values[k..])
         == if k == |fields| then ""
            else (match fields[k]
                  case Word(tag) => Open(tag) + values[k] + Close(tag)
                  case Text(tag) => Open(tag) + values[k] + Close(tag)
                  case Tail => values[k]) + FieldText(fields[k + 1..], values[k + 1..])
  {
    if k < |fields| {
      assert fields[k..][1..] == fields[k + 1..] && values[k..][1..] == values[k + 1..];
    }
  }

  lemma FieldsFromStart(fields: seq<Field>, values: seq<string>)
    ensures FieldText(fields[0..], values[0..]) == FieldText(fields, values)
  {
  }

  lemma SignalTags()
    ensures Open("SIGNAL") + "\n" == "<SIGNAL>\n" && Close("SIGNAL") == "</SIGNAL>\n"
    ensures Open("RETURNS") == "<RETURNS>" && Close("RETURNS") == "</RETURNS>\n"
  {
  }

  lemma ArgTags()
    ensures Open("ARG") + "\n" == "<ARG>\n" && Close("ARG") == "</ARG>\n"
    ensures Open("TYPE") == "<TYPE>" && Close("TYPE") == "</TYPE>\n"
    ensures Open("RANGE") == "<RANGE>" && Close("RANGE") == "</RANGE>\n"
    ensures Open("FLAGS") == "<FLAGS>" && Close("FLAGS") == "</FLAGS>\n"
  {
  }

  lemma MoreArgTags()
    ensures Open("NICK") == "<NICK>" && Close("NICK") == "</NICK>\n"
    ensures Open("BLURB") == "<BLURB>" && Close("BLURB") == "</BLURB>\n"
    ensures Open("DEFAULT") == "<DEFAULT>" && Close("DEFAULT") == "</DEFAULT>\n"
  {
  }

  /** What is printed for a signal. */
  lemma SignalText(owner: string, name: string, result: string, args: string)
    ensures Block(SIGNALS, Body(SIGNALS, owner, Entry(name, [result, args])))
         == "<SIGNAL>\n"
            + ("<NAME>" + owner + "::" + name + "</NAME>\n" + ("<RETURNS>" + result + "</RETURNS>\n" + args))
            + "</SIGNAL>\n"
  {
    hide FieldText, Open, Close;
    SignalTags();
    var values := [result, args];
    FieldsFromStart(SIGNALS.fields, values);
    FieldAt(SIGNALS.fields, values, 0);
    FieldAt(SIGNALS.fields, values, 1);
    FieldAt(SIGNALS.fields, values, 2);
    NothingAfter(args);
  }

  lemma NothingAfter(s: string)
    ensures s + "" == s
  {
  }

  lemma ArgFieldsEnd(v: seq<string>)
    requires |v| == 6
    ensures FieldText(ARGS.fields[3..], v[3..])
         == "<NICK>" + v[3] + "</NICK>\n"
            + ("<BLURB>" + v[4] + "</BLURB>\n"
               + ("<DEFAULT>" + v[5] + "</DEFAULT>\n"))
  {
    MoreArgTags();
    var fields := ARGS.fields;
    assert |fields| == 6 && fields[3] == Text("NICK") && fields[4] == Text("BLURB") && fields[5] == Text("DEFAULT");
    hide *;
    FieldAt(fields, v, 3);
    FieldAt(fields, v, 4);
    FieldAt(fields, v, 5);
    FieldAt(fields, v, 6);
    NothingAfter("<DEFAULT>" + v[5] + "</DEFAULT>\n");
  }

  /** And for an argument. */
  lemma ArgText(owner: string, e: Entry)
    requires |e.values| == 6
    ensures Block(ARGS, Body(ARGS, owner, e))
         == "<ARG>\n"
            + ("<NAME>" + owner + "::" + e.name + "</NAME>\n"
               + ("<TYPE>" + e.values[0] + "</TYPE>\n"
                  + ("<RANGE>" + e.values[1] + "</RANGE>\n"
                     + ("<FLAGS>" + e.values[2] + "</FLAGS>\n"
                        + ("<NICK>" + e.values[3] + "</NICK>\n"
                           + ("<BLURB>" + e.values[4] + "</BLURB>\n"
                              + ("<DEFAULT>" + e.values[5] + "</DEFAULT>\n")))))))
            + "</ARG>\n"
  {
    hide FieldText, Open, Close;
    ArgTags();
    var v := e.values;
    FieldsFromStart(ARGS.fields, v);
    FieldAt(ARGS.fields, v, 0);
    FieldAt(ARGS.fields, v, 1);
    FieldAt(ARGS.fields, v, 2);
    ArgFieldsEnd(v);
  }
}
