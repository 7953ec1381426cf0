/**
 * Loading, merging and writing the .signals and .args files of a documentation module. A document is an
 * ordered dictionary of objects, each with an ordered dictionary of entries.
 */
module ScanMerge {
  import opened Basics
  import opened OrderedDict
  import opened Pattern
  import opened ScanFormat

  datatype Object = Object(name: string, entries: Pairs<Entry>)

  type Doc = Pairs<Object>

  /** What one block tells: an object, and an entry for it if the block can be read. */
  datatype Fact = Fact(owner: string, entry: Option<Entry>)

  lemma SearchSound(p: Pattern, s: string)
    ensures Search(p, s).Some? ==> Fits(p, Search(p, s).value.m.groups)
  {
    RunSound(p, s);
    if Run(p, s).None? && s != "" {
      SearchSound(p, s[1..]);
    }
  }

  lemma {:induction false} FindAllSound(p: Pattern, s: string)
    ensures forall i :: 0 <= i < |FindAll(p, s)| ==> Fits(p, FindAll(p, s)[i])
    decreases |s|
  {
    SearchSound(p, s);
    match Search(p, s)
    case None =>
    case Some(f) =>
      SearchShrinks(p, s);
      if |f.m.rest| < |s| - f.at {
        FindAllSound(p, f.m.rest);
      } else if f.m.rest != "" {
        FindAllSound(p, f.m.rest[1..]);
      }
  }

  lemma BlockGroups(f: Format, data: string)
    ensures forall i :: 0 <= i < |FindAll(BlockPattern(f), data)| ==> FindAll(BlockPattern(f), data)[i] != []
  {
    FindAllSound(BlockPattern(f), data);
    assert forall g :: Fits(BlockPattern(f), g) ==> Fits(Lazy(Lit(Close(f.tag), End)), g);
  }

  /** A block without a name line tells nothing. */
  function FactOf(f: Format, body: string): Option<Fact> {
    SearchSound(NAME_PATTERN, body);
    match Search(NAME_PATTERN, body)
    case None => None
    case Some(n) =>
      var entry := match Search(RecordPattern(f.fields), body)
        case None => None
        case Some(r) => Some(Entry(n.m.groups[1], r.m.groups));
      Some(Fact(n.m.groups[0], entry))
  }

  function Facts(f: Format, bodies: seq<seq<string>>): seq<Fact>
    requires forall i :: 0 <= i < |bodies| ==> bodies[i] != []
  {
    if bodies == [] then []
    else
      var init := Facts(f, bodies[..|bodies| - 1]);
      match FactOf(f, bodies[|bodies| - 1][0])
      case None => init
      case Some(fact) => init + [fact]
  }

  function ObjectAt(doc: Doc, owner: string): Object {
    match Get(doc, owner)
    case Some(o) => o
    case None => Object(owner, [])
  }

  function With(o: Object, entry: Option<Entry>): Object {
    match entry
    case None => o
    case Some(e) => o.(entries := Put(o.entries, e.name, e))
  }

  function Learn(doc: Doc, fact: Fact): Doc {
    Put(doc, fact.owner, With(ObjectAt(doc, fact.owner), fact.entry))
  }

  function LearnAll(doc: Doc, facts: seq<Fact>): Doc {
    if facts == [] then doc else Learn(LearnAll(doc, facts[..|facts| - 1]), facts[|facts| - 1])
  }

  function FileFacts(f: Format, data: string): seq<Fact> {
    BlockGroups(f, data);
    Facts(f, FindAll(BlockPattern(f), data))
  }

  /** Loading a file into a document. */
  function Load(f: Format, doc: Doc, data: string): Doc {
    LearnAll(doc, FileFacts(f, data))
  }

  function ObjectBodies(f: Format, o: Object): seq<string> {
    seq(|o.entries|, i requires 0 <= i < |o.entries| => Body(f, o.name, o.entries[i].1))
  }

  function Bodies(f: Format, doc: Doc): seq<string> {
    if doc == [] then []
    else Bodies(f, doc[..|doc| - 1]) + ObjectBodies(f, doc[|doc| - 1].1)
  }

  /** The text of a document. */
  function Print(f: Format, doc: Doc): string {
    FileText(f, Bodies(f, doc))
  }

  class Document {
    const f: Format
    const objects: Dict<Object>

    ghost predicate Valid()
      reads objects
    {
      objects.Valid()
    }

    constructor (f: Format)
      ensures this.f == f && Valid() && fresh(objects) && objects.Contents() == []
    {
      this.f := f;
      objects := new Dict();
    }

    /** One turn of the loop of load_data. */
    method LoadBlock(body: string)
      requires Valid()
      modifies objects
      ensures Valid()
      ensures objects.Contents() == match FactOf(f, body)
                                    case None => old(objects.Contents())
                                    case Some(fact) => Learn(old(objects.Contents()), fact)
    {
      SearchSound(NAME_PATTERN, body);
      var nmatch := Search(NAME_PATTERN, body);
      if nmatch.Some? {
        var o := nmatch.value.m.groups[0];
        var found := objects.Lookup(o);
        var obj := if found.Some? then found.value else Object(o, []);
        ghost var doc := objects.Contents();
        if found.None? {
          objects.SetItem(o, obj);
        } else {
          PutSame(doc, o);
        }
        var rmatch := Search(RecordPattern(f.fields), body);
        if rmatch.Some? {
          var entry := Entry(nmatch.value.m.groups[1], rmatch.value.m.groups);
          objects.SetItem(o, obj.(entries := Put(obj.entries, entry.name, entry)));
          PutTwice(doc, o, obj, With(obj, Some(entry)));
        }
      }
    }

    /** load_data */
    method LoadData(data: string)
      requires Valid()
      modifies objects
      ensures Valid() && objects.Contents() == Load(f, old(objects.Contents()), data)
    {
      hide FindAll, LearnAll, Facts, FactOf, Learn;
      BlockGroups(f, data);
      var blocks := FindAll(BlockPattern(f), data);
      ghost var doc := objects.Contents();
      assert blocks[..|blocks|] == blocks;
      NoFacts(f, doc);
      for n := 0 to |blocks|
        invariant Valid() && objects.Contents() == LearnAll(doc, Facts(f, blocks[..n]))
      {
        TakeOne(blocks, n);
        FactsStep(f, doc, blocks[..n + 1]);
        LoadBlock(blocks[n][0]);
      }
    }

    /** get_data */
    method GetData() returns (data: string)
      requires Valid()
      ensures data == Print(f, objects.Contents())
    {
      var lines: seq<string> := [];
      ghost var doc := objects.Contents();
      var values := objects.Values();
      for n := 0 to |values|
        invariant lines == Blocks(f, Bodies(f, doc[..n]))
      {
        var more := ObjectLines(values[n]);
        LinesStep(f, doc, n);
        lines := lines + more;
      }
      assert doc[..|doc|] == doc;
      data := Join("\n", lines) + "\n";
    }

    /** The inner loop. */
    method ObjectLines(o: Object) returns (lines: seq<string>)
      ensures lines == Blocks(f, ObjectBodies(f, o))
    {
      lines := [];
      for i := 0 to |o.entries|
        invariant lines == Blocks(f, ObjectBodies(f, o))[..i]
      {
        lines := lines + [Block(f, Body(f, o.name, o.entries[i].1))];
      }
    }
  }

  lemma LinesStep(f: Format, doc: Doc, n: nat)
    requires n < |doc|
    ensures Blocks(f, Bodies(f, doc[..n + 1]))
         == Blocks(f, Bodies(f, doc[..n])) + Blocks(f, ObjectBodies(f, doc[n].1))
  {
    assert doc[..n + 1][..n] == doc[..n];
  }

  lemma NoFacts(f: Format, doc: Doc)
    ensures LearnAll(doc, Facts(f, [])) == doc
  {
  }

  lemma FactsStep(f: Format, doc: Doc, blocks: seq<seq<string>>)
    requires blocks != [] && forall i :: 0 <= i < |blocks| ==> blocks[i] != []
    ensures LearnAll(doc, Facts(f, blocks))
         == var before := LearnAll(doc, Facts(f, blocks[..|blocks| - 1]));
            match FactOf(f, blocks[|blocks| - 1][0])
            case None => before
            case Some(fact) => Learn(before, fact)
  {
    var init := Facts(f, blocks[..|blocks| - 1]);
    match FactOf(f, blocks[|blocks| - 1][0])
    case None =>
    case Some(fact) => assert (init + [fact])[..|init|] == init;
  }

  // ---- What is printed is read back ----------------------------------------------------------------------

  function ObjectFacts(o: Object): seq<Fact> {
    seq(|o.entries|, i requires 0 <= i < |o.entries| => Fact(o.name, Some(o.entries[i].1)))
  }

  function DocFacts(doc: Doc): seq<Fact> {
    if doc == [] then [] else DocFacts(doc[..|doc| - 1]) + ObjectFacts(doc[|doc| - 1].1)
  }

  /** Objects and entries are filed under their names, each name once. */
  ghost predicate Filed(doc: Doc) {
    && Distinct(Keys(doc))
    && forall i :: 0 <= i < |doc| ==> doc[i].0 == doc[i].1.name && FiledObject(doc[i].1)
  }

  ghost predicate FiledObject(o: Object) {
    && Distinct(Keys(o.entries))
    && forall i :: 0 <= i < |o.entries| ==> o.entries[i].0 == o.entries[i].1.name
  }

  ghost predicate CleanObject(f: Format, o: Object) {
    forall i :: 0 <= i < |o.entries| ==> CleanEntry(f, o.name, o.entries[i].1)
  }

  /** No field of any entry holds a delimiter. */
  ghost predicate Clean(f: Format, doc: Doc) {
    forall i :: 0 <= i < |doc| ==> CleanObject(f, doc[i].1)
  }

  ghost predicate ReadsAs(f: Format, bodies: seq<string>, facts: seq<Fact>) {
    && |bodies| == |facts| && ClearBodies(f, bodies)
    && forall i :: 0 <= i < |bodies| ==> FactOf(f, bodies[i]) == Some(facts[i])
  }

  lemma FactRead(f: Format, owner: string, e: Entry)
    requires WellFormed(f) && CleanEntry(f, owner, e)
    ensures FactOf(f, Body(f, owner, e)) == Some(Fact(owner, Some(e)))
  {
    NameSearch(f, owner, e);
    RecordSearch(f, owner, e);
  }

  lemma ObjectRead(f: Format, o: Object)
    requires WellFormed(f) && CleanObject(f, o)
    ensures ReadsAs(f, ObjectBodies(f, o), ObjectFacts(o))
  {
    forall i | 0 <= i < |o.entries| ensures FactOf(f, ObjectBodies(f, o)[i]) == Some(ObjectFacts(o)[i]) {
      FactRead(f, o.name, o.entries[i].1);
    }
    forall i, s: string | 0 <= i < |o.entries| && s != "" && s[0] == '<'
      ensures Clear(Close(f.tag), ObjectBodies(f, o)[i], s)
    {
      BodyClear(f, o.name, o.entries[i].1, s);
    }
  }

  lemma ReadsConcat(f: Format, a: seq<string>, b: seq<string>, x: seq<Fact>, y: seq<Fact>)
    requires ReadsAs(f, a, x) && ReadsAs(f, b, y)
    ensures ReadsAs(f, a + b, x + y)
  {
  }

  lemma {:induction false} DocRead(f: Format, doc: Doc)
    requires WellFormed(f) && Clean(f, doc)
    ensures ReadsAs(f, Bodies(f, doc), DocFacts(doc))
  {
    if doc != [] {
      var n := |doc| - 1;
      DocRead(f, doc[..n]);
      ObjectRead(f, doc[n].1);
      ReadsConcat(f, Bodies(f, doc[..n]), ObjectBodies(f, doc[n].1), DocFacts(doc[..n]), ObjectFacts(doc[n].1));
    }
  }

  lemma {:induction false} FactsRead(f: Format, bodies: seq<string>, facts: seq<Fact>)
    requires ReadsAs(f, bodies, facts)
    ensures Facts(f, Singles(bodies)) == facts
  {
    if bodies != [] {
      var n := |bodies| - 1;
      assert Singles(bodies)[..n] == Singles(bodies[..n]);
      FactsRead(f, bodies[..n], facts[..n]);
      InitLast(facts);
    }
  }

  /** A printed file tells every entry of the document, in order, and nothing else. */
  lemma FileRead(f: Format, doc: Doc)
    requires WellFormed(f) && Clean(f, doc)
    ensures FileFacts(f, Print(f, doc)) == DocFacts(doc)
  {
    DocRead(f, doc);
    BlocksFound(f, Bodies(f, doc));
    FactsRead(f, Bodies(f, doc), DocFacts(doc));
  }

  // ---- Loading a printed document ------------------------------------------------------------------------

  lemma {:induction false} LearnConcat(doc: Doc, a: seq<Fact>, b: seq<Fact>)
    ensures LearnAll(doc, a + b) == LearnAll(LearnAll(doc, a), b)
  {
    if b == [] {
      assert a + b == a;
    } else {
      var n := |b| - 1;
      assert (a + b)[..|a| + n] == a + b[..n];
      LearnConcat(doc, a, b[..n]);
    }
  }

  lemma {:induction false} GetEnd(doc: Doc, owner: string, o: Object)
    requires owner !in Keys(doc)
    ensures Get(doc + [(owner, o)], owner) == Some(o)
    ensures forall other :: Put(doc + [(owner, o)], owner, other) == doc + [(owner, other)]
  {
    PutNew(doc, owner, o);
    GetPut(doc, owner, o, owner);
    forall other ensures Put(doc + [(owner, o)], owner, other) == doc + [(owner, other)] {
      PutTwice(doc, owner, o, other);
      PutNew(doc, owner, other);
    }
  }

  /** The document after the first n entries of an object that was not in it. */
  function Started(doc: Doc, o: Object, n: nat): Doc
    requires n <= |o.entries|
  {
    if n == 0 then doc else doc + [(o.name, Object(o.name, o.entries[..n]))]
  }

  lemma StartMore(doc: Doc, o: Object, k: nat)
    requires FiledObject(o) && o.name !in Keys(doc) && k < |o.entries|
    ensures Learn(Started(doc, o, k), Fact(o.name, Some(o.entries[k].1))) == Started(doc, o, k + 1)
  {
    hide Distinct;
    FreshEntry(o, k);
    assert o.entries[..k + 1] == o.entries[..k] + [o.entries[k]];
    if k == 0 {
      GetFound(doc, o.name);
      PutNew(doc, o.name, Object(o.name, o.entries[..1]));
    } else {
      GetEnd(doc, o.name, Object(o.name, o.entries[..k]));
    }
  }

  lemma {:induction false} LearnObject(doc: Doc, o: Object, n: nat)
    requires FiledObject(o) && o.name !in Keys(doc) && n <= |o.entries|
    ensures LearnAll(doc, ObjectFacts(o)[..n]) == Started(doc, o, n)
  {
    hide Learn, Started;
    if n > 0 {
      LearnObject(doc, o, n - 1);
      assert ObjectFacts(o)[..n][..n - 1] == ObjectFacts(o)[..n - 1];
      StartMore(doc, o, n - 1);
    } else {
      StartNone(doc, o);
    }
  }

  lemma StartNone(doc: Doc, o: Object)
    ensures Started(doc, o, 0) == doc
  {
  }

  lemma FreshEntry(o: Object, k: nat)
    requires FiledObject(o) && k < |o.entries|
    ensures Put(o.entries[..k], o.entries[k].0, o.entries[k].1) == o.entries[..k] + [o.entries[k]]
  {
    forall i | 0 <= i < k ensures Keys(o.entries[..k])[i] != o.entries[k].0 {
      assert Keys(o.entries)[i] != Keys(o.entries)[k];
    }
    PutNew(o.entries[..k], o.entries[k].0, o.entries[k].1);
  }

  /** The objects that have entries. */
  function NonEmpty(doc: Doc): (r: Doc)
    ensures |r| <= |doc|
  {
    if doc == [] then []
    else NonEmpty(doc[..|doc| - 1]) + if doc[|doc| - 1].1.entries == [] then [] else [doc[|doc| - 1]]
  }

  lemma {:induction false} NonEmptyKeys(doc: Doc, key: string)
    requires key in Keys(NonEmpty(doc))
    ensures key in Keys(doc)
  {
    var n := |doc| - 1;
    assert doc != [];
    hide Keys;
    KeysInit(doc);
    KeysAppend(NonEmpty(doc[..n]), doc[n]);
    if key in Keys(NonEmpty(doc[..n])) {
      NonEmptyKeys(doc[..n], key);
    } else {
      assert NonEmpty(doc[..n]) + [] == NonEmpty(doc[..n]);
    }
  }

  lemma FreshObject(doc: Doc)
    requires Filed(doc) && doc != []
    ensures Filed(doc[..|doc| - 1]) && doc[|doc| - 1].0 !in Keys(NonEmpty(doc[..|doc| - 1]))
  {
    var n := |doc| - 1;
    var key := doc[n].0;
    forall i | 0 <= i < n ensures Keys(doc[..n])[i] == Keys(doc)[i] {
    }
    assert Keys(doc)[n] == key;
    assert key !in Keys(doc[..n]);
    if key in Keys(NonEmpty(doc[..n])) {
      NonEmptyKeys(doc[..n], key);
    }
  }

  /** Loading what was printed gives the objects that have entries, with all their entries, in order. */
  lemma {:induction false} LearnDoc(doc: Doc)
    requires Filed(doc)
    ensures LearnAll([], DocFacts(doc)) == NonEmpty(doc)
  {
    if doc != [] {
      hide *;
      FreshObject(doc);
      LearnDoc(doc[..|doc| - 1]);
      LastLearned(doc);
    }
  }

  lemma LastLearned(doc: Doc)
    requires Filed(doc) && doc != [] && doc[|doc| - 1].0 !in Keys(NonEmpty(doc[..|doc| - 1]))
    requires LearnAll([], DocFacts(doc[..|doc| - 1])) == NonEmpty(doc[..|doc| - 1])
    ensures LearnAll([], DocFacts(doc)) == NonEmpty(doc)
  {
    var n := |doc| - 1;
    var o := doc[n].1;
    LearnConcat([], DocFacts(doc[..n]), ObjectFacts(o));
    WholeObject(NonEmpty(doc[..n]), o);
  }

  lemma WholeObject(doc: Doc, o: Object)
    requires FiledObject(o) && o.name !in Keys(doc)
    ensures LearnAll(doc, ObjectFacts(o)) == doc + if o.entries == [] then [] else [(o.name, o)]
  {
    LearnObject(doc, o, |o.entries|);
    assert ObjectFacts(o)[..|o.entries|] == ObjectFacts(o);
    assert o.entries[..|o.entries|] == o.entries;
  }

  ghost predicate NoEmptyObject(doc: Doc) {
    forall i :: 0 <= i < |doc| ==> doc[i].1.entries != []
  }

  lemma {:induction false} NonEmptyIff(doc: Doc)
    ensures NonEmpty(doc) == doc <==> NoEmptyObject(doc)
    ensures !NoEmptyObject(doc) ==> |NonEmpty(doc)| < |doc|
  {
    if doc != [] {
      var n := |doc| - 1;
      NonEmptyIff(doc[..n]);
      InitLast(doc);
    }
  }

  /** Printing and loading restores the document exactly when every object has an entry. */
  lemma RoundTrip(f: Format, doc: Doc)
    requires WellFormed(f) && Filed(doc) && Clean(f, doc)
    ensures Load(f, [], Print(f, doc)) == NonEmpty(doc)
    ensures Load(f, [], Print(f, doc)) == doc <==> NoEmptyObject(doc)
  {
    FileRead(f, doc);
    LearnDoc(doc);
    NonEmptyIff(doc);
  }

  // ---- Merging -------------------------------------------------------------------------------------------

  function Owners(facts: seq<Fact>): seq<string> {
    seq(|facts|, i requires 0 <= i < |facts| => facts[i].owner)
  }

  /** The entries that the facts write into one object, in order. */
  function WritesFor(facts: seq<Fact>, owner: string): Pairs<Entry> {
    if facts == [] then []
    else
      var last := facts[|facts| - 1];
      WritesFor(facts[..|facts| - 1], owner)
      + if last.owner == owner && last.entry.Some? then [(last.entry.value.name, last.entry.value)] else []
  }

  /** Known objects keep their places; the others follow in the order in which they first come. */
  lemma {:induction false} LearnAllKeys(doc: Doc, facts: seq<Fact>)
    ensures Keys(LearnAll(doc, facts)) == Arrivals(Keys(doc), Owners(facts))
  {
    if facts != [] {
      hide Put, Keys, With, ObjectAt, Owners, KeysWith;
      var n := |facts| - 1;
      LearnAllKeys(doc, facts[..n]);
      var before := LearnAll(doc, facts[..n]);
      PutKeys(before, facts[n].owner, With(ObjectAt(before, facts[n].owner), facts[n].entry));
      OwnersInit(facts);
    }
  }

  lemma OwnersInit(facts: seq<Fact>)
    requires facts != []
    ensures |Owners(facts)| == |facts|
    ensures Owners(facts)[..|facts| - 1] == Owners(facts[..|facts| - 1])
    ensures Owners(facts)[|facts| - 1] == facts[|facts| - 1].owner
  {
  }

  lemma PutAllMore<V>(ps: Pairs<V>, writes: Pairs<V>, key: string, value: V)
    ensures PutAll(ps, writes + [(key, value)]) == Put(PutAll(ps, writes), key, value)
  {
    assert (writes + [(key, value)])[..|writes|] == writes;
  }

  /** Each object ends with what was written into it. */
  lemma {:induction false} LearnAllAt(doc: Doc, facts: seq<Fact>, owner: string)
    ensures ObjectAt(LearnAll(doc, facts), owner).name == ObjectAt(doc, owner).name
    ensures ObjectAt(LearnAll(doc, facts), owner).entries
         == PutAll(ObjectAt(doc, owner).entries, WritesFor(facts, owner))
  {
    if facts != [] {
      var n := |facts| - 1;
      var last := facts[n];
      LearnAllAt(doc, facts[..n], owner);
      var before := LearnAll(doc, facts[..n]);
      GetPut(before, last.owner, With(ObjectAt(before, last.owner), last.entry), owner);
      if last.owner == owner && last.entry.Some? {
        PutAllMore(ObjectAt(doc, owner).entries, WritesFor(facts[..n], owner), last.entry.value.name, last.entry.value);
      } else {
        assert WritesFor(facts, owner) == WritesFor(facts[..n], owner);
      }
    }
  }

  lemma SameDocs(a: Doc, b: Doc)
    requires Keys(a) == Keys(b) && Distinct(Keys(a))
    requires forall k :: k in Keys(a) ==> ObjectAt(a, k) == ObjectAt(b, k)
    ensures a == b
  {
    forall k | k in Keys(a) ensures Get(a, k) == Get(b, k) {
      GetFound(a, k);
      GetFound(b, k);
      assert ObjectAt(a, k) == ObjectAt(b, k);
    }
    SamePairs(a, b);
  }

  lemma FiledAt(doc: Doc, owner: string)
    requires Filed(doc)
    ensures FiledObject(ObjectAt(doc, owner)) && ObjectAt(doc, owner).name == owner
  {
    GetFound(doc, owner);
    if owner in Keys(doc) {
      var i :| 0 <= i < |doc| && Keys(doc)[i] == owner;
      GetAt(doc, i);
    }
  }

  /** Learning the same facts again changes nothing. */
  lemma LearnAgain(doc: Doc, facts: seq<Fact>)
    requires Filed(doc)
    ensures LearnAll(LearnAll(doc, facts), facts) == LearnAll(doc, facts)
  {
    var once := LearnAll(doc, facts);
    var twice := LearnAll(once, facts);
    LearnAllKeys(doc, facts);
    LearnAllKeys(once, facts);
    ArrivalsShape(Keys(doc), Owners(facts));
    ArrivalsAgain(Keys(once), Owners(facts));
    forall k | k in Keys(once) ensures ObjectAt(once, k) == ObjectAt(twice, k) {
      LearnAllAt(doc, facts, k);
      LearnAllAt(once, facts, k);
      FiledAt(doc, k);
      PutAllAgain(ObjectAt(doc, k).entries, WritesFor(facts, k));
    }
    SameDocs(once, twice);
  }

  /** Loading the same file a second time changes nothing, whatever is in it. */
  lemma LoadAgain(f: Format, doc: Doc, data: string)
    requires Filed(doc)
    ensures Load(f, Load(f, doc, data), data) == Load(f, doc, data)
  {
    LearnAgain(doc, FileFacts(f, data));
  }

  lemma {:induction false} WritesConcat(a: seq<Fact>, b: seq<Fact>, owner: string)
    ensures WritesFor(a + b, owner) == WritesFor(a, owner) + WritesFor(b, owner)
  {
    if b == [] {
      assert a + b == a;
    } else {
      assert (a + b)[..|a| + |b| - 1] == a + b[..|b| - 1];
      WritesConcat(a, b[..|b| - 1], owner);
    }
  }

  lemma {:induction false} ObjectWrites(o: Object, n: nat, owner: string)
    requires FiledObject(o) && n <= |o.entries|
    ensures WritesFor(ObjectFacts(o)[..n], owner) == if owner == o.name then o.entries[..n] else []
  {
    hide Distinct;
    if n > 0 {
      TakeOne(ObjectFacts(o), n - 1);
      ObjectWrites(o, n - 1, owner);
      TakeOne(o.entries, n - 1);
    }
  }

  lemma {:induction false} GetInit(doc: Doc, key: string)
    requires doc != []
    ensures Get(doc, key) == var init := Get(doc[..|doc| - 1], key);
                             if init.Some? then init
                             else if doc[|doc| - 1].0 == key then Some(doc[|doc| - 1].1) else None
  {
    if |doc| > 1 {
      assert doc[1..][..|doc| - 2] == doc[..|doc| - 1][1..];
      GetInit(doc[1..], key);
    }
  }

  /** What a document's own facts write into an object are its entries. */
  lemma {:induction false} DocWrites(doc: Doc, owner: string)
    requires Filed(doc)
    ensures WritesFor(DocFacts(doc), owner) == ObjectAt(doc, owner).entries
  {
    if doc == [] {
      NoWrites(owner);
    } else {
      hide *;
      FreshObject(doc);
      DocWrites(doc[..|doc| - 1], owner);
      LastObject(doc, owner);
    }
  }

  /** The last object's entries are what the whole document adds to the earlier objects. */
  lemma LastObject(doc: Doc, owner: string)
    requires Filed(doc) && doc != []
    requires WritesFor(DocFacts(doc[..|doc| - 1]), owner) == ObjectAt(doc[..|doc| - 1], owner).entries
    ensures WritesFor(DocFacts(doc), owner) == ObjectAt(doc, owner).entries
  {
    hide WritesFor, ObjectFacts, Distinct;
    var n := |doc| - 1;
    var o := doc[n].1;
    WritesConcat(DocFacts(doc[..n]), ObjectFacts(o), owner);
    AllWrites(o, owner);
    GetInit(doc, owner);
    GetFound(doc[..n], owner);
    KnownEarlier(doc, owner);
  }

  lemma NoWrites(owner: string)
    ensures WritesFor([], owner) == []
  {
  }

  lemma AllWrites(o: Object, owner: string)
    requires FiledObject(o)
    ensures WritesFor(ObjectFacts(o), owner) == if owner == o.name then o.entries else []
  {
    ObjectWrites(o, |o.entries|, owner);
    assert ObjectFacts(o)[..|o.entries|] == ObjectFacts(o);
    assert o.entries[..|o.entries|] == o.entries;
  }

  lemma KnownEarlier(doc: Doc, owner: string)
    requires Filed(doc) && doc != []
    ensures owner in Keys(doc[..|doc| - 1]) ==> owner != doc[|doc| - 1].0
  {
    var n := |doc| - 1;
    forall i | 0 <= i < n ensures Keys(doc[..n])[i] != doc[n].0 {
      assert Keys(doc)[i] != Keys(doc)[n];
    }
  }

  lemma {:induction false} ArrivalsConcat(ks: seq<string>, a: seq<string>, b: seq<string>)
    ensures Arrivals(ks, a + b) == Arrivals(Arrivals(ks, a), b)
  {
    if b == [] {
      assert a + b == a;
    } else {
      assert (a + b)[..|a| + |b| - 1] == a + b[..|b| - 1];
      ArrivalsConcat(ks, a, b[..|b| - 1]);
    }
  }

  lemma {:induction false} OneArrival(ks: seq<string>, o: Object, n: nat)
    requires n <= |o.entries|
    ensures Arrivals(ks, Owners(ObjectFacts(o)[..n])) == if n == 0 then ks else KeysWith(ks, o.name)
  {
    if n > 0 {
      OneArrival(ks, o, n - 1);
      assert Owners(ObjectFacts(o)[..n])[..n - 1] == Owners(ObjectFacts(o)[..n - 1]);
    }
  }

  lemma ObjectArrives(ks: seq<string>, doc: Doc, last: (string, Object))
    ensures Arrivals(ks, Keys(doc + [last])) == KeysWith(Arrivals(ks, Keys(doc)), last.0)
  {
    KeysInit(doc + [last]);
    assert (doc + [last])[..|doc|] == doc;
    ArrivalsEnd(ks, Keys(doc), last.0);
  }

  lemma OwnersEnd(ks: seq<string>, facts: seq<Fact>, o: Object)
    ensures Arrivals(ks, Owners(facts + ObjectFacts(o)))
         == var before := Arrivals(ks, Owners(facts)); if o.entries == [] then before else KeysWith(before, o.name)
  {
    assert Owners(facts + ObjectFacts(o)) == Owners(facts) + Owners(ObjectFacts(o));
    ArrivalsConcat(ks, Owners(facts), Owners(ObjectFacts(o)));
    OneArrival(Arrivals(ks, Owners(facts)), o, |o.entries|);
    assert ObjectFacts(o)[..|o.entries|] == ObjectFacts(o);
  }

  /** A printed document brings in its objects that have entries, in order. */
  lemma {:induction false} DocArrivals(ks: seq<string>, doc: Doc)
    requires Filed(doc)
    ensures Arrivals(ks, Owners(DocFacts(doc))) == Arrivals(ks, Keys(NonEmpty(doc)))
  {
    if doc != [] {
      var n := |doc| - 1;
      FreshObject(doc);
      DocArrivals(ks, doc[..n]);
      OwnersEnd(ks, DocFacts(doc[..n]), doc[n].1);
      if doc[n].1.entries == [] {
        assert NonEmpty(doc) == NonEmpty(doc[..n]);
      } else {
        ObjectArrives(ks, NonEmpty(doc[..n]), doc[n]);
        assert NonEmpty(doc) == NonEmpty(doc[..n]) + [doc[n]];
        assert doc[n].0 == doc[n].1.name;
      }
    }
  }

  /** The entry filed under a name in an object. */
  function EntryAt(doc: Doc, owner: string, name: string): Option<Entry> {
    Get(ObjectAt(doc, owner).entries, name)
  }

  lemma FiledPrefix(doc: Doc)
    requires Filed(doc)
    ensures Distinct(Keys(NonEmpty(doc)))
    decreases |doc|
  {
    if doc != [] {
      FreshObject(doc);
      FiledPrefix(doc[..|doc| - 1]);
      KeysAppend(NonEmpty(doc[..|doc| - 1]), doc[|doc| - 1]);
    }
  }

  /** Old objects keep their places, and the new file's other objects follow in that file's order. */
  lemma MergedObjects(f: Format, older: Doc, newer: Doc)
    requires WellFormed(f) && Filed(older) && Filed(newer) && Clean(f, newer)
    ensures Keys(Load(f, older, Print(f, newer))) == Keys(older) + Without(Keys(NonEmpty(newer)), Keys(older))
  {
    FileRead(f, newer);
    LearnAllKeys(older, DocFacts(newer));
    DocArrivals(Keys(older), newer);
    FiledPrefix(newer);
    ArrivalsOrder(Keys(older), Keys(NonEmpty(newer)));
  }

  /**
   * The same holds for the entries of each object; an entry of the new file replaces the old one of the same
   * name, and all other entries stay.
   */
  lemma MergedEntries(f: Format, older: Doc, newer: Doc, owner: string, name: string)
    requires WellFormed(f) && Filed(older) && Filed(newer) && Clean(f, newer)
    ensures var merged := Load(f, older, Print(f, newer));
      && Keys(ObjectAt(merged, owner).entries)
         == Keys(ObjectAt(older, owner).entries)
            + Without(Keys(ObjectAt(newer, owner).entries), Keys(ObjectAt(older, owner).entries))
      && EntryAt(merged, owner, name)
         == if EntryAt(newer, owner, name).Some? then EntryAt(newer, owner, name) else EntryAt(older, owner, name)
  {
    var before, writes := ObjectAt(older, owner).entries, ObjectAt(newer, owner).entries;
    FileRead(f, newer);
    LearnAllAt(older, DocFacts(newer), owner);
    DocWrites(newer, owner);
    FiledAt(newer, owner);
    PutAllKeys(before, writes);
    ArrivalsOrder(Keys(before), Keys(writes));
    PutAllGet(before, writes, name);
    LastIsOnly(writes, name);
  }

  /** With distinct keys, the value written last is the only one. */
  lemma LastIsOnly<V>(ps: Pairs<V>, key: string)
    requires Distinct(Keys(ps))
    ensures LastWrite(ps, key) == Get(ps, key)
  {
    PutAllFresh(ps);
    PutAllGet([], ps, key);
    GetFound(ps, key);
  }

  // ---- The files -----------------------------------------------------------------------------------------

  ghost predicate FiledPair(p: (string, Object)) {
    p.0 == p.1.name && FiledObject(p.1)
  }

  lemma WithFiled(o: Object, entry: Option<Entry>)
    requires FiledObject(o)
    ensures FiledObject(With(o, entry))
  {
    if entry.Some? {
      var e := entry.value;
      DistinctPut(o.entries, e.name, e);
      forall i | 0 <= i < |Put(o.entries, e.name, e)|
        ensures Put(o.entries, e.name, e)[i].0 == Put(o.entries, e.name, e)[i].1.name
      {
        PutElements(o.entries, e.name, e, i);
      }
    }
  }

  lemma LearnFiled(doc: Doc, fact: Fact)
    requires Filed(doc)
    ensures Filed(Learn(doc, fact))
  {
    var o := With(ObjectAt(doc, fact.owner), fact.entry);
    FiledAt(doc, fact.owner);
    WithFiled(ObjectAt(doc, fact.owner), fact.entry);
    DistinctPut(doc, fact.owner, o);
    forall i | 0 <= i < |Learn(doc, fact)| ensures FiledPair(Learn(doc, fact)[i]) {
      PutElements(doc, fact.owner, o, i);
    }
  }

  /** Whatever a file holds, loading it keeps objects and entries filed under their names. */
  lemma {:induction false} LearnAllFiled(doc: Doc, facts: seq<Fact>)
    requires Filed(doc)
    ensures Filed(LearnAll(doc, facts))
  {
    if facts != [] {
      LearnAllFiled(doc, facts[..|facts| - 1]);
      LearnFiled(LearnAll(doc, facts[..|facts| - 1]), facts[|facts| - 1]);
    }
  }

  /** A fact as a clean printed document tells it. */
  ghost predicate CleanFact(f: Format, fact: Fact) {
    fact.entry.Some? && CleanEntry(f, fact.owner, fact.entry.value)
  }

  lemma ObjectAtClean(f: Format, doc: Doc, owner: string)
    requires Filed(doc) && Clean(f, doc)
    ensures CleanObject(f, ObjectAt(doc, owner))
  {
    if Get(doc, owner).Some? {
      GetElement(doc, owner);
    }
  }

  lemma LearnClean(f: Format, doc: Doc, fact: Fact)
    requires Filed(doc) && Clean(f, doc) && NoEmptyObject(doc) && CleanFact(f, fact)
    ensures Clean(f, Learn(doc, fact)) && NoEmptyObject(Learn(doc, fact))
  {
    var e := fact.entry.value;
    var was := ObjectAt(doc, fact.owner);
    var o := With(was, fact.entry);
    FiledAt(doc, fact.owner);
    ObjectAtClean(f, doc, fact.owner);
    forall i | 0 <= i < |o.entries| ensures CleanEntry(f, o.name, o.entries[i].1) {
      PutElements(was.entries, e.name, e, i);
    }
    forall i | 0 <= i < |Learn(doc, fact)|
      ensures CleanObject(f, Learn(doc, fact)[i].1) && Learn(doc, fact)[i].1.entries != []
    {
      PutElements(doc, fact.owner, o, i);
    }
  }

  lemma {:induction false} LearnAllClean(f: Format, doc: Doc, facts: seq<Fact>)
    requires Filed(doc) && Clean(f, doc) && NoEmptyObject(doc)
    requires forall i :: 0 <= i < |facts| ==> CleanFact(f, facts[i])
    ensures Clean(f, LearnAll(doc, facts)) && NoEmptyObject(LearnAll(doc, facts))
  {
    if facts != [] {
      var n := |facts| - 1;
      LearnAllFiled(doc, facts[..n]);
      LearnAllClean(f, doc, facts[..n]);
      LearnClean(f, LearnAll(doc, facts[..n]), facts[n]);
    }
  }

  lemma {:induction false} DocFactsClean(f: Format, doc: Doc)
    requires Clean(f, doc)
    ensures forall i :: 0 <= i < |DocFacts(doc)| ==> CleanFact(f, DocFacts(doc)[i])
  {
    if doc != [] {
      var n := |doc| - 1;
      DocFactsClean(f, doc[..n]);
      assert CleanObject(f, doc[n].1);
    }
  }

  /** One run of the script: the old file and the new one become the file it writes. */
  function MergeFiles(f: Format, oldData: string, newData: string): string {
    Print(f, Load(f, Load(f, [], oldData), newData))
  }

  /** What the script holds after each of its two files. */
  lemma MergedIsClean(f: Format, older: Doc, newer: Doc)
    requires WellFormed(f) && Filed(older) && Filed(newer) && Clean(f, older) && Clean(f, newer)
    ensures var loaded := Load(f, [], Print(f, older));
      var merged := Load(f, loaded, Print(f, newer));
      && loaded == NonEmpty(older) && Filed(loaded)
      && Filed(merged) && Clean(f, merged) && NoEmptyObject(merged)
  {
    var loaded := Load(f, [], Print(f, older));
    RoundTrip(f, older);
    FileRead(f, older);
    FileRead(f, newer);
    DocFactsClean(f, older);
    DocFactsClean(f, newer);
    LearnAllFiled([], DocFacts(older));
    LearnAllClean(f, [], DocFacts(older));
    LearnAllFiled(loaded, DocFacts(newer));
    LearnAllClean(f, loaded, DocFacts(newer));
  }

  /** Reading the file the script wrote gives what it held. */
  lemma MergedFileReads(f: Format, older: Doc, newer: Doc)
    requires WellFormed(f) && Filed(older) && Filed(newer) && Clean(f, older) && Clean(f, newer)
    ensures Filed(NonEmpty(older))
    ensures Load(f, [], MergeFiles(f, Print(f, older), Print(f, newer))) == Load(f, NonEmpty(older), Print(f, newer))
  {
    hide Load, Print, Filed, Clean, NoEmptyObject, WellFormed, NonEmpty;
    MergedIsClean(f, older, newer);
    RoundTrip(f, Load(f, Load(f, [], Print(f, older)), Print(f, newer)));
  }

  /** Leaving out objects without entries changes the entries of none. */
  lemma NonEmptyAt(doc: Doc, owner: string)
    requires Filed(doc)
    ensures ObjectAt(NonEmpty(doc), owner).entries == ObjectAt(doc, owner).entries
  {
    hide Filed, NonEmpty;
    LearnDoc(doc);
    LearnAllAt([], DocFacts(doc), owner);
    DocWrites(doc, owner);
    FiledAt(doc, owner);
    PutAllFresh(ObjectAt(doc, owner).entries);
  }

  /**
   * The file the script writes holds the old file's objects with entries in their places, then the new file's others
   * in its order. In each object the old entries keep their places and the new file's others follow; an entry of the
   * new file replaces the old one of its name, and all other entries are still there.
   */
  lemma MergedFile(f: Format, older: Doc, newer: Doc, owner: string, name: string)
    requires WellFormed(f) && Filed(older) && Filed(newer) && Clean(f, older) && Clean(f, newer)
    ensures var written := Load(f, [], MergeFiles(f, Print(f, older), Print(f, newer)));
      && Keys(written) == Keys(NonEmpty(older)) + Without(Keys(NonEmpty(newer)), Keys(NonEmpty(older)))
      && Keys(ObjectAt(written, owner).entries)
         == Keys(ObjectAt(older, owner).entries)
            + Without(Keys(ObjectAt(newer, owner).entries), Keys(ObjectAt(older, owner).entries))
      && EntryAt(written, owner, name)
         == if EntryAt(newer, owner, name).Some? then EntryAt(newer, owner, name) else EntryAt(older, owner, name)
  {
    hide Load, Print, Filed, Clean, WellFormed, NonEmpty, ObjectAt, MergeFiles;
    MergedFileReads(f, older, newer);
    NonEmptyAt(older, owner);
    MergedObjects(f, NonEmpty(older), newer);
    MergedEntries(f, NonEmpty(older), newer, owner, name);
  }

  /** Running the script again on what it wrote and the same new file writes the same file. */
  lemma MergeAgain(f: Format, older: Doc, newer: Doc)
    requires WellFormed(f) && Filed(older) && Filed(newer) && Clean(f, older) && Clean(f, newer)
    ensures var merged := MergeFiles(f, Print(f, older), Print(f, newer));
      MergeFiles(f, merged, Print(f, newer)) == merged
  {
    hide Load, Print, Filed, Clean, NoEmptyObject, WellFormed;
    MergedIsClean(f, older, newer);
    MergedFileReads(f, older, newer);
    LoadAgain(f, NonEmpty(older), Print(f, newer));
  }

  /** An object that never got a readable entry is lost when the file is written. */
  lemma EmptyObjectIsLost()
    ensures var doc: Doc := [("GstFoo", Object("GstFoo", []))];
      && Filed(doc) && Clean(SIGNALS, doc)
      && Load(SIGNALS, [], Print(SIGNALS, doc)) == []
  {
    var doc: Doc := [("GstFoo", Object("GstFoo", []))];
    SignalsWellFormed();
    assert Filed(doc);
    RoundTrip(SIGNALS, doc);
    assert NonEmpty(doc) == [];
  }
}
