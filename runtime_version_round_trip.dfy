/**
 * The partner of `extract_runtime_version`: writing a `RuntimeVersion` out as the
 * `VERSION` block of a runtime's source, in the layout Substrate runtimes use, and
 * reading it back with the extractor gives the record again, whatever the order of
 * the fields and whatever text follows the block.
 */
module RuntimeVersionRoundTrip {
  import opened Wrappers
  import opened Decimal
  import opened RuntimeVersionExtractor

  // ---------------------------------------------------------------- writing a prefix

  /** A prefix written out: its words, and one space for each run that needs one or follows a `:`. */
  function Render(p: Prefix, afterColon: bool): (s: string)
    ensures p.Done? ==> s == []
  {
    match p
    case Done => ""
    case Word(w, next) => w + Render(next, w == ":")
    case Spaces(atLeastOne, next) => (if atLeastOne || afterColon then " " else "") + Render(next, false)
  }

  /** What `Render` writes reads as the prefix. */
  lemma {:induction false} RenderSpells(p: Prefix, afterColon: bool)
    ensures Spells(p, Render(p, afterColon))
  {
    var s := Render(p, afterColon);
    match p
    case Done =>
    case Word(w, next) =>
      RenderSpells(next, w == ":");
      assert s[|w|..] == Render(next, w == ":");
    case Spaces(atLeastOne, next) =>
      RenderSpells(next, false);
      var k := if atLeastOne || afterColon then 1 else 0;
      assert AllSpaces(s[..k]) && s[k..] == Render(next, false);
  }

  /** No word of the prefix holds `c`. */
  predicate WordsAvoid(p: Prefix, c: char) {
    match p
    case Done => true
    case Word(w, next) => c !in w && WordsAvoid(next, c)
    case Spaces(_, next) => WordsAvoid(next, c)
  }

  /** A character that is not a space and is in no word is not written. */
  lemma {:induction false} RenderAvoids(p: Prefix, afterColon: bool, c: char)
    requires c != ' ' && WordsAvoid(p, c)
    ensures c !in Render(p, afterColon)
  {
    match p
    case Done =>
    case Word(w, next) => RenderAvoids(next, w == ":", c);
    case Spaces(_, next) => RenderAvoids(next, false, c);
  }

  /** `pub const VERSION: RuntimeVersion = RuntimeVersion {` */
  function Header(): (h: string) {
    Render(BlockHeader, false)
  }

  lemma HeaderEqualsAvoids(c: char)
    requires c == '_' || c == '}'
    ensures WordsAvoid(HeaderEquals, c)
  {
    assert WordsAvoid(HeaderBrace, c);
  }

  lemma HeaderWordsAvoid(c: char)
    requires c == '_' || c == '}'
    ensures WordsAvoid(BlockHeader, c)
  {
    HeaderEqualsAvoids(c);
    assert WordsAvoid(HeaderColon, c);
  }

  /** The header reads as the block's header and holds neither `_` nor `}`. */
  lemma HeaderFacts()
    ensures Spells(BlockHeader, Header())
    ensures '_' !in Header() && '}' !in Header()
  {
    RenderSpells(BlockHeader, false);
    HeaderWordsAvoid('_');
    HeaderWordsAvoid('}');
    RenderAvoids(BlockHeader, false, '_');
    RenderAvoids(BlockHeader, false, '}');
  }

  // ---------------------------------------------------------------- field names

  /** Lower-case ASCII letters and `_`, as field names are written. */
  predicate Identifier(w: string) {
    forall k :: 0 <= k < |w| ==> 'a' <= w[k] <= 'z' || w[k] == '_'
  }

  lemma SpecNameIdentifier() ensures Identifier(SpecName.Name()) && SpecName.Name()[4] == '_' {}
  lemma ImplNameIdentifier() ensures Identifier(ImplName.Name()) && ImplName.Name()[4] == '_' {}
  lemma AuthoringVersionIdentifier() ensures Identifier(AuthoringVersion.Name()) && AuthoringVersion.Name()[9] == '_' {}
  lemma SpecVersionIdentifier() ensures Identifier(SpecVersion.Name()) && SpecVersion.Name()[4] == '_' {}
  lemma ImplVersionIdentifier() ensures Identifier(ImplVersion.Name()) && ImplVersion.Name()[4] == '_' {}
  lemma TransactionVersionIdentifier()
    ensures Identifier(TransactionVersion.Name()) && TransactionVersion.Name()[11] == '_'
  {
  }

  /**
   * What the field names are made of: at least nine characters, among them a `_`, and
   * none of the characters that delimit or separate the parts of a line.
   */
  lemma NameChars(f: Field)
    ensures 9 <= |f.Name()| && '_' in f.Name()
    ensures ' ' !in f.Name() && '\n' !in f.Name() && '\t' !in f.Name()
    ensures ':' !in f.Name() && '}' !in f.Name()
  {
    match f
    case SpecName => SpecNameIdentifier();
    case ImplName => ImplNameIdentifier();
    case AuthoringVersion => AuthoringVersionIdentifier();
    case SpecVersion => SpecVersionIdentifier();
    case ImplVersion => ImplVersionIdentifier();
    case TransactionVersion => TransactionVersionIdentifier();
  }

  /** Two characters that tell the fields apart: the last, and the ninth from the end. */
  function Tag(f: Field): (char, char) {
    match f
    case SpecName => ('e', 's')
    case ImplName => ('e', 'i')
    case AuthoringVersion => ('n', 'g')
    case SpecVersion => ('n', 'c')
    case ImplVersion => ('n', 'l')
    case TransactionVersion => ('n', 'n')
  }

  lemma NameTag(f: Field)
    ensures 9 <= |f.Name()| && Tag(f) == (f.Name()[|f.Name()| - 1], f.Name()[|f.Name()| - 9])
  {
  }

  /** No field's name ends another's: a name that ends the text before a `:` tells the field. */
  lemma NamesSuffixFree(f: Field, g: Field)
    requires |g.Name()| <= |f.Name()|
    requires f.Name()[|f.Name()| - |g.Name()|..] == g.Name()
    ensures f == g
  {
    NameTag(f);
    NameTag(g);
    var n, w := f.Name(), g.Name();
    assert n[|n| - 1] == w[|w| - 1] && n[|n| - 9] == w[|w| - 9] by {
      assert n[|n| - |w|..][|w| - 1] == n[|n| - 1];
      assert n[|n| - |w|..][|w| - 9] == n[|n| - 9];
    }
  }

  // ---------------------------------------------------------------- where a field pattern can start

  /**
   * What every match of a field's pattern starts with: the field's name `w`, then only
   * spaces up to a `:`.
   */
  predicate Anchor(t: string, q: nat, w: string) {
    && LitAt(t, q, w)
    && SkipSpaces(t, q + |w|) < |t|
    && t[SkipSpaces(t, q + |w|)] == ':'
  }

  lemma PrefixAnchored(t: string, q: nat, w: string, rest: Prefix)
    requires q <= |t| && MatchPrefix(t, q, Word(w, Spaces(false, Word(":", rest)))).Some?
    ensures Anchor(t, q, w)
  {
    SpacesStep(t, q + |w|, false, Word(":", rest));
  }

  lemma FieldMatchAnchored(t: string, q: nat, g: Field)
    requires q <= |t| && MatchAt(FieldPattern(g), t, q).Some?
    ensures Anchor(t, q, g.Name())
  {
    if g.IsText() {
      var rest := Spaces(false, Word("create_runtime_str!", Spaces(false, Word("(\"", Done))));
      assert NamePrefix(g) == Word(g.Name(), Spaces(false, Word(":", rest)));
      PrefixAnchored(t, q, g.Name(), rest);
    } else {
      assert NumberPrefix(g) == Word(g.Name(), Spaces(false, Word(":", Spaces(false, Done))));
      PrefixAnchored(t, q, g.Name(), Spaces(false, Done));
    }
  }

  /**
   * A word without a newline: an anchor in `x + y`, where `y` starts a new line, lies
   * wholly in `x` or wholly in `y`.
   */
  lemma AnchorSplit(x: string, y: string, q: nat, w: string)
    requires '\n' !in w
    requires |y| > 0 && y[0] == '\n' && Anchor(x + y, q, w)
    ensures q < |x| ==> Anchor(x, q, w)
    ensures q >= |x| ==> Anchor(y, q - |x|, w)
  {
    var t := x + y;
    var i := q + |w|;
    var m := SkipSpaces(t, i);
    if q < |x| {
      assert i <= |x| by {
        assert forall k :: q <= k < i ==> t[k] == w[k - q];
        assert t[|x|] == y[0];
      }
      assert m < |x| by {
        assert t[|x|] == '\n';
      }
      assert x[q..i] == t[q..i];
      var mx := SkipSpaces(x, i);
      assert forall k :: i <= k < m ==> x[k] == t[k];
      assert mx == m;
    } else {
      assert y[q - |x|..i - |x|] == t[q..i];
      var my := SkipSpaces(y, i - |x|);
      assert forall k :: i - |x| <= k < m - |x| ==> y[k] == t[k + |x|];
      assert my == m - |x|;
    }
  }

  // ---------------------------------------------------------------- writing a record

  /** A name the extractor reads back whole: non-empty, on one line, and free of `"`, `:` and `}`. */
  predicate PlainName(s: string) {
    && |s| > 0
    && forall k :: 0 <= k < |s| ==> s[k] != '"' && s[k] != '\n' && s[k] != ':' && s[k] != '}'
  }

  /** The text a field's value is written as: the name itself, or the number's decimal numeral. */
  function Written(v: RuntimeVersion, f: Field): (w: string) {
    match f
    case SpecName => v.specName
    case ImplName => v.implName
    case AuthoringVersion => Text(v.authoringVersion)
    case SpecVersion => Text(v.specVersion)
    case ImplVersion => Text(v.implVersion)
    case TransactionVersion => Text(v.transactionVersion)
  }

  /** What closes a field's line after its value. */
  function Closing(f: Field): (c: string) {
    if f.IsText() then "\")," else ","
  }

  /** The prefix a field's pattern reads before its capture (the extractor's `FieldPattern`). */
  function FieldPrefix(f: Field): (p: Prefix) {
    if f.IsText() then NamePrefix(f) else NumberPrefix(f)
  }

  /** The part of a field's prefix after its `:`. */
  function AfterColon(f: Field): (p: Prefix) {
    if f.IsText() then NameTail.next.next else NumberTail.next.next
  }

  /** What follows a field's `:` on its line: the rest of its prefix written out, its value, and the closing. */
  function Rest(v: RuntimeVersion, f: Field): (r: string) {
    Render(AfterColon(f), true) + Written(v, f) + Closing(f)
  }

  /**
   * One field on a line of its own:
   * `\n\tspec_name: create_runtime_str!("node"),` or `\n\tspec_version: 9180,`.
   */
  function Line(v: RuntimeVersion, f: Field): (l: string)
    ensures |l| > 0 && l[0] == '\n'
  {
    "\n\t" + f.Name() + ":" + Rest(v, f)
  }

  /** The name, the `:` and what follows it up to the value are the field's prefix written out. */
  lemma PrefixShape(f: Field)
    ensures Render(FieldPrefix(f), false) == f.Name() + ":" + Render(AfterColon(f), true)
  {
    NameChars(f);
    assert FieldPrefix(f) == Word(f.Name(), Spaces(false, Word(":", AfterColon(f))));
    RenderNameColon(f.Name(), AfterColon(f));
  }

  lemma RenderNameColon(n: string, after: Prefix)
    requires n != ":"
    ensures Render(Word(n, Spaces(false, Word(":", after))), false) == n + ":" + Render(after, true)
  {
    assert Render(Spaces(false, Word(":", after)), false) == ":" + Render(after, true);
  }

  lemma AfterColonAvoids(f: Field, c: char)
    requires c == '}' || c == ':'
    ensures c !in Render(AfterColon(f), true)
  {
    if f.IsText() {
      TextTailAvoids();
    } else {
      NumberTailAvoids();
    }
    RenderAvoids(AfterColon(f), true, c);
  }

  lemma TextTailAvoids()
    ensures WordsAvoid(NameTail.next.next, '}') && WordsAvoid(NameTail.next.next, ':')
  {
    var w := "create_runtime_str!";
    assert forall k :: 0 <= k < |w| ==> 'a' <= w[k] <= 'z' || w[k] == '_' || w[k] == '!';
  }

  lemma NumberTailAvoids()
    ensures WordsAvoid(NumberTail.next.next, '}') && WordsAvoid(NumberTail.next.next, ':')
  {
  }

  /** Lines joined in the given order. */
  function Joined(line: Entry -> string, order: seq<Entry>): (text: string) {
    if order == [] then "" else line(order[0]) + Joined(line, order[1..])
  }

  /** Where the first line of `g` starts in `Joined(line, order)`. */
  function Start(line: Entry -> string, order: seq<Entry>, g: Entry): (n: nat)
    requires g in order
  {
    if order[0] == g then 0 else |line(order[0])| + Start(line, order[1..], g)
  }

  /**
   * A line of a block that holds no field, such as `apis: RUNTIME_API_VERSIONS,`: it
   * starts a line, holds no `}`, and no field's name in it is followed by spaces and a `:`.
   */
  ghost predicate IsExtraLine(s: string) {
    && |s| > 0 && s[0] == '\n' && '}' !in s
    && forall g: Field, q: nat :: !Anchor(s, q, g.Name())
  }

  type ExtraLine = s: string | IsExtraLine(s) witness "\n"

  /** One line of a block: a field of the record, or a line that holds no field. */
  datatype Entry = FieldLine(field: Field) | Extra(text: ExtraLine)

  /** The lines of a record. */
  function LineOf(v: RuntimeVersion): (line: Entry -> string) {
    (e: Entry) => match e
         case FieldLine(f) => Line(v, f)
         case Extra(s) => s
  }

  /**
   * The block: the header, the lines of the layout in order, and a closing brace on a line
   * of its own.
   */
  function Write(v: RuntimeVersion, layout: seq<Entry>): (text: string) {
    Header() + Joined(LineOf(v), layout) + "\n}"
  }

  /** A written value holds none of the characters that end or delimit a field. */
  lemma WrittenAvoids(v: RuntimeVersion, f: Field, c: char)
    requires PlainName(v.specName) && PlainName(v.implName)
    requires c == '}' || c == ':' || c == '\n' || c == '"'
    ensures c !in Written(v, f)
  {
    if !f.IsText() {
      assert AllDigits(Written(v, f));
    }
  }

  lemma RestAvoids(v: RuntimeVersion, f: Field, c: char)
    requires PlainName(v.specName) && PlainName(v.implName)
    requires c == '}' || c == ':'
    ensures c !in Rest(v, f)
  {
    WrittenAvoids(v, f, c);
    AfterColonAvoids(f, c);
    assert c !in Closing(f);
  }

  lemma LineAvoidsBrace(v: RuntimeVersion, f: Field)
    requires PlainName(v.specName) && PlainName(v.implName)
    ensures '}' !in Line(v, f)
  {
    RestAvoids(v, f, '}');
    NameChars(f);
  }

  /** A character no line holds is not in the joined lines. */
  lemma {:induction false} JoinedAvoids(line: Entry -> string, order: seq<Entry>, c: char)
    requires forall f :: c !in line(f)
    ensures c !in Joined(line, order)
  {
    if order != [] {
      JoinedAvoids(line, order[1..], c);
    }
  }

  /** A piece of `r` found at `k` is found at `|l| + k` in `l + r`, and `l` begins it. */
  lemma SliceShift(l: string, r: string, k: nat, m: string, total: string)
    requires k + |m| <= |r| && r[k..k + |m|] == m
    requires total == l + r
    ensures |l| + k + |m| <= |total|
    ensures total[|l| + k..|l| + k + |m|] == m
    ensures total[0..|l|] == l
  {
    assert total[|l| + k..|l| + k + |m|] == r[k..k + |m|];
  }

  /** The first line of `g` sits at `Start` in the joined lines. */
  lemma {:induction false} JoinedAt(line: Entry -> string, order: seq<Entry>, g: Entry)
    requires g in order
    ensures Start(line, order, g) + |line(g)| <= |Joined(line, order)|
    ensures Joined(line, order)[Start(line, order, g)..Start(line, order, g) + |line(g)|] == line(g)
  {
    var l := line(order[0]);
    var r := Joined(line, order[1..]);
    assert Joined(line, order) == l + r;
    if order[0] == g {
      SliceShift(l, r, 0, [], Joined(line, order));
      assert Start(line, order, g) == 0 && line(g) == l;
    } else {
      JoinedAt(line, order[1..], g);
      var k := Start(line, order[1..], g);
      assert Start(line, order, g) == |l| + k;
      SliceShift(l, r, k, line(g), Joined(line, order));
    }
  }

  // ---------------------------------------------------------------- one anchor per field

  /** Every line starts on a line of its own. */
  ghost predicate NewLines(line: Entry -> string) {
    forall f :: |line(f)| > 0 && line(f)[0] == '\n'
  }

  /**
   * A line holds one `:`, right after its name `n`, so a word `w` is anchored in it only
   * when `w` ends `n` and stops at that `:`.
   */
  lemma LineAnchor(n: string, r: string, q: nat, w: string)
    requires |n| > 0 && n[|n| - 1] != ' ' && ':' !in n && ':' !in r
    requires '\n' !in w && '\t' !in w
    requires Anchor("\n\t" + n + ":" + r, q, w)
    ensures 2 <= q && q + |w| == 2 + |n| && n[|n| - |w|..] == w
  {
    var l := "\n\t" + n + ":" + r;
    var c := 2 + |n|;
    var i := q + |w|;
    assert SkipSpaces(l, i) == c by {
      assert forall k :: 2 <= k < c ==> l[k] == n[k - 2];
      assert forall k :: c < k < |l| ==> l[k] == r[k - c - 1];
    }
    assert i == c by {
      assert l[c - 1] == n[|n| - 1];
    }
    assert q >= 2 by {
      assert l[0] == '\n' && l[1] == '\t';
      assert forall k :: q <= k < i ==> l[k] == w[k - q];
      assert forall k :: 0 <= k < |w| ==> w[k] != '\n' && w[k] != '\t';
    }
    assert l[2..c] == n;
    assert n[|n| - |w|..] == l[q..c];
  }

  /** In a record's lines, a field is anchored only in its own line, at its name. */
  lemma FieldLineAnchor(v: RuntimeVersion, f: Field, q: nat, g: Field)
    requires PlainName(v.specName) && PlainName(v.implName)
    requires Anchor(Line(v, f), q, g.Name())
    ensures f == g && q == 2
  {
    NameChars(f);
    NameChars(g);
    RestAvoids(v, f, ':');
    LineAnchor(f.Name(), Rest(v, f), q, g.Name());
    NamesSuffixFree(f, g);
  }

  /** A joined text of lines starts a new line, when it is not empty. */
  lemma JoinedHead(line: Entry -> string, order: seq<Entry>)
    requires NewLines(line)
    ensures |Joined(line, order)| > 0 ==> Joined(line, order)[0] == '\n'
  {
    if order != [] {
      assert Joined(line, order) == line(order[0]) + Joined(line, order[1..]);
    }
  }

  /**
   * When only `g`'s own line anchors `w`, and there at the name, then in the joined lines and
   * the closing line `w` is anchored only at or after the name on `g`'s first line.
   */
  lemma {:induction false} JoinedAnchor(line: Entry -> string, order: seq<Entry>, q: nat, w: string, g: Entry)
    requires NewLines(line)
    requires '\n' !in w && |w| > 2
    requires forall f, p: nat :: Anchor(line(f), p, w) ==> f == g && p == 2
    requires Anchor(Joined(line, order) + "\n}", q, w)
    ensures g in order && Start(line, order, g) + 2 <= q
  {
    if order != [] {
      var f := order[0];
      var rest := Joined(line, order[1..]) + "\n}";
      assert Joined(line, order) + "\n}" == line(f) + rest;
      JoinedHead(line, order[1..]);
      AnchorSplit(line(f), rest, q, w);
      if q >= |line(f)| {
        JoinedAnchor(line, order[1..], q - |line(f)|, w, g);
      }
    }
  }

  /** The header holds no field's anchor. */
  lemma NoAnchorInHeader(q: nat, g: Field)
    ensures !Anchor(Header(), q, g.Name())
  {
    NameChars(g);
    HeaderFacts();
  }

  lemma HeaderAnchorFree(g: Field)
    ensures forall q: nat :: !Anchor(Header(), q, g.Name())
  {
    forall q: nat
      ensures !Anchor(Header(), q, g.Name())
    {
      NoAnchorInHeader(q, g);
    }
  }

  // ---------------------------------------------------------------- each line matches its pattern

  lemma NameCaptureMatches(t: string, q: nat, f: Field, a: nat, b: nat)
    requires q <= a < b && b + 2 <= |t|
    requires Spells(NamePrefix(f), t[q..a])
    requires forall k :: a <= k < b ==> t[k] != '"' && t[k] != '\n'
    requires t[b] == '"' && t[b + 1] == ')'
    ensures MatchAt(NameField(f), t, q) == Some((a, b))
  {
    NameCaptureReads(t, a, b);
    NameMatchIff(t, q, f, a, b);
  }

  /** A capture free of `"` and newlines, followed by `")`, is the shortest the name pattern allows. */
  lemma NameCaptureReads(t: string, a: nat, b: nat)
    requires a < b && b + 2 <= |t|
    requires forall k :: a <= k < b ==> t[k] != '"' && t[k] != '\n'
    requires t[b] == '"' && t[b + 1] == ')'
    ensures LitAt(t, b, "\")") && OnOneLine(t, a, b)
    ensures forall m :: a < m < b ==> !LitAt(t, m, "\")")
  {
    assert t[b..b + 2] == "\")";
    forall m | a < m < b
      ensures !LitAt(t, m, "\")")
    {
      assert t[m..m + 2][0] == t[m];
    }
  }

  lemma NumberCaptureMatches(t: string, q: nat, f: Field, a: nat, b: nat)
    requires q <= a < b < |t|
    requires Spells(NumberPrefix(f), t[q..a])
    requires forall k :: a <= k < b ==> IsDigit(t[k])
    requires !IsDigit(t[b])
    ensures MatchAt(NumberField(f), t, q) == Some((a, b))
  {
    NumberMatchIff(t, q, f, a, b);
  }

  /** A line is a reading `p` of its field's prefix between `\n\t` and the value. */
  lemma LineParts(v: RuntimeVersion, f: Field) returns (p: string)
    ensures Spells(FieldPrefix(f), p)
    ensures Line(v, f) == "\n\t" + p + (Written(v, f) + Closing(f))
  {
    p := Render(FieldPrefix(f), false);
    PrefixShape(f);
    RenderSpells(FieldPrefix(f), false);
    Regroup(f.Name(), Render(AfterColon(f), true), Written(v, f), Closing(f));
  }

  lemma Regroup(n: string, r: string, w: string, c: string)
    ensures "\n\t" + n + ":" + (r + w + c) == "\n\t" + (n + ":" + r) + (w + c)
  {
  }

  /** Three consecutive pieces of a text: where each one sits. */
  lemma Pieces(t: string, at: nat, x: string, y: string, z: string)
    requires at + |x + y + z| <= |t| && t[at..at + |x + y + z|] == x + y + z
    ensures t[at..at + |x|] == x
    ensures t[at + |x|..at + |x| + |y|] == y
    ensures t[at + |x| + |y|..at + |x| + |y| + |z|] == z
  {
    var l := x + y + z;
    forall k | 0 <= k < |l|
      ensures t[at + k] == l[k]
    {
      assert t[at..at + |l|][k] == t[at + k];
    }
    forall k | 0 <= k < |x|
      ensures t[at..at + |x|][k] == x[k]
    {
      assert l[k] == x[k];
    }
    forall k | 0 <= k < |y|
      ensures t[at + |x|..at + |x| + |y|][k] == y[k]
    {
      assert l[|x| + k] == y[k];
    }
    forall k | 0 <= k < |z|
      ensures t[at + |x| + |y|..at + |x| + |y| + |z|][k] == z[k]
    {
      assert l[|x| + |y| + k] == z[k];
    }
  }

  /** A piece of a text, named `l`, read as the string `x` it equals. */
  lemma SameSlice(t: string, at: nat, l: string, x: string)
    requires l == x && at + |l| <= |t| && t[at..at + |l|] == l
    ensures at + |x| <= |t| && t[at..at + |x|] == x
  {
  }

  /** The value and closing of a field's line as the field's pattern needs them. */
  predicate ValueShape(f: Field, w: string, c: string) {
    && |w| > 0
    && (f.IsText() ==> |c| >= 2 && c[0] == '"' && c[1] == ')' && forall k :: 0 <= k < |w| ==> w[k] != '"' && w[k] != '\n')
    && (!f.IsText() ==> |c| >= 1 && !IsDigit(c[0]) && AllDigits(w))
  }

  /** A piece of a text found at `a`, character by character. */
  lemma SliceAt(t: string, a: nat, s: string)
    requires a + |s| <= |t| && t[a..a + |s|] == s
    ensures forall k :: a <= k < a + |s| ==> t[k] == s[k - a]
  {
    forall k | a <= k < a + |s|
      ensures t[k] == s[k - a]
    {
      assert t[a..a + |s|][k - a] == t[k];
    }
  }

  /** Where the parts of a line `\n\t` + `p` + `w` + `c` sit in a text that holds it at `at`. */
  lemma LineLayout(t: string, at: nat, p: string, w: string, c: string)
    requires at + |"\n\t" + p + (w + c)| <= |t| && t[at..at + |"\n\t" + p + (w + c)|] == "\n\t" + p + (w + c)
    ensures at + 2 + |p| + |w| + |c| <= |t|
    ensures t[at + 2..at + 2 + |p|] == p
    ensures t[at + 2 + |p|..at + 2 + |p| + |w|] == w
    ensures t[at + 2 + |p| + |w|..at + 2 + |p| + |w| + |c|] == c
  {
    Pieces(t, at, "\n\t", p, w + c);
    Pieces(t, at + 2 + |p|, [], w, c);
  }

  /** A reading of a prefix is a reading of the piece of text it equals. */
  lemma SpellsSlice(pre: Prefix, s: string, p: string)
    requires s == p && Spells(pre, p)
    ensures Spells(pre, s)
  {
  }

  /** `LineLayout`, for a line given whole. */
  lemma LineLayoutOf(t: string, at: nat, l: string, p: string, w: string, c: string)
    requires l == "\n\t" + p + (w + c) && at + |l| <= |t| && t[at..at + |l|] == l
    ensures at + 2 + |p| + |w| + |c| <= |t|
    ensures t[at + 2..at + 2 + |p|] == p
    ensures t[at + 2 + |p|..at + 2 + |p| + |w|] == w
    ensures t[at + 2 + |p| + |w|..at + 2 + |p| + |w| + |c|] == c
  {
    SameSlice(t, at, l, "\n\t" + p + (w + c));
    LineLayout(t, at, p, w, c);
  }

  /** A value at `a`..`b` in `t` as the field's pattern captures it, with what follows it. */
  predicate ValueAt(f: Field, t: string, a: nat, b: nat) {
    && a < b
    && (f.IsText() ==> b + 2 <= |t| && (forall k :: a <= k < b ==> t[k] != '"' && t[k] != '\n') && t[b] == '"' && t[b + 1] == ')')
    && (!f.IsText() ==> b < |t| && (forall k :: a <= k < b ==> IsDigit(t[k])) && !IsDigit(t[b]))
  }

  /** A value `w` and a closing `c` laid out from `a` on, as the field's pattern needs them. */
  lemma ValueLayout(t: string, f: Field, a: nat, w: string, c: string)
    requires ValueShape(f, w, c)
    requires a + |w| + |c| <= |t| && t[a..a + |w|] == w && t[a + |w|..a + |w| + |c|] == c
    ensures ValueAt(f, t, a, a + |w|)
  {
    SliceAt(t, a, w);
    SliceAt(t, a + |w|, c);
  }

  /** The field's prefix read from `q` to `a`, then a value: the field's pattern matches at `q` and keeps the value. */
  lemma FieldMatches(t: string, q: nat, f: Field, a: nat, b: nat)
    requires q <= a <= |t| && Spells(FieldPrefix(f), t[q..a]) && ValueAt(f, t, a, b)
    ensures MatchAt(FieldPattern(f), t, q) == Some((a, b))
  {
    if f.IsText() {
      NameCaptureMatches(t, q, f, a, b);
    } else {
      NumberCaptureMatches(t, q, f, a, b);
    }
  }

  lemma WrittenShape(v: RuntimeVersion, f: Field)
    requires PlainName(v.specName) && PlainName(v.implName)
    ensures ValueShape(f, Written(v, f), Closing(f))
  {
    WrittenAvoids(v, f, '"');
    WrittenAvoids(v, f, '\n');
    if !f.IsText() {
      assert AllDigits(Written(v, f));
    }
  }

  // ---------------------------------------------------------------- the block

  /** No match of the block pattern starts in `t` before `n`. */
  predicate NoBlockBefore(t: string, n: nat) {
    forall q :: 0 <= q < n && q <= |t| ==> MatchAt(VersionBlock, t, q).None?
  }

  /** `pub` occurs nowhere in `s`. */
  predicate WithoutPub(s: string) {
    forall q :: 0 <= q < |s| ==> !LitAt(s, q, "pub")
  }

  /**
   * Every block match starts with `pub`, so a preamble without `pub`, followed by a text that
   * starts with `p`, holds the start of no match: `pub` has no other `p` to overlap it.
   */
  lemma PreambleWithoutPub(pre: string, rest: string, post: string)
    requires WithoutPub(pre) && |rest| > 0 && rest[0] == 'p'
    ensures NoBlockBefore(pre + rest + post, |pre|)
  {
    var t := pre + rest + post;
    forall q | 0 <= q < |pre| && q <= |t|
      ensures MatchAt(VersionBlock, t, q).None?
    {
      NoPubInPreamble(pre, rest, post, q);
      NoBlockWithoutPub(t, q);
    }
  }

  /** `pub` starts nowhere in the preamble, not even running into the `p` after it. */
  lemma NoPubInPreamble(pre: string, rest: string, post: string, q: nat)
    requires WithoutPub(pre) && |rest| > 0 && rest[0] == 'p' && q < |pre|
    ensures !LitAt(pre + rest + post, q, "pub")
  {
    var t := pre + rest + post;
    if q + 3 <= |pre| {
      assert !LitAt(pre, q, "pub");
      assert pre[q..q + 3] == t[q..q + 3];
    } else if q + 3 <= |t| {
      assert t[q..q + 3][|pre| - q] == t[|pre|] == rest[0];
    }
  }

  /** Where `pub` does not start, no block match starts. */
  lemma NoBlockWithoutPub(t: string, q: nat)
    requires q <= |t| && !LitAt(t, q, "pub")
    ensures MatchAt(VersionBlock, t, q).None?
  {
    MatchAtBlock(t, q);
  }

  /** A written block starts with the `p` of `pub`. */
  lemma WrittenStartsPub(v: RuntimeVersion, layout: seq<Entry>)
    ensures |Write(v, layout)| > 0 && Write(v, layout)[0] == 'p'
  {
    HeaderFacts();
    assert Write(v, layout)[0] == Header()[0];
  }

  /**
   * A header, a body without `}`, and a closing brace on a line of its own are what the
   * block pattern captures, after a preamble where no match starts and whatever follows.
   */
  lemma BlockCaptured(pre: string, hd: string, body: string, post: string)
    requires Spells(BlockHeader, hd) && '}' !in body
    requires NoBlockBefore(pre + (hd + body + "\n}") + post, |pre|)
    ensures Capture(VersionBlock, pre + (hd + body + "\n}") + post) == Some(hd + body + "\n}")
  {
    var w := hd + body + "\n}";
    var t := pre + w + post;
    var s, h, e := |pre|, |pre| + |hd|, |pre| + |w|;
    assert t[s..h] == hd;
    assert t[e - 2] == '\n' && t[e - 1] == '}';
    assert forall k :: h <= k < e - 2 ==> t[k] == body[k - h];
    BlockMatchAt(t, s, h, e);
    FindIs(VersionBlock, t, 0, s);
    assert t[s..e] == w;
  }

  /** Text read as a header, a character, and text up to the first `}` after it, is a block match. */
  lemma BlockMatchAt(t: string, s: nat, h: nat, e: nat)
    requires s <= h && h + 1 < e <= |t| && Spells(BlockHeader, t[s..h]) && t[e - 1] == '}'
    requires forall k :: h + 1 <= k < e - 1 ==> t[k] != '}'
    ensures MatchAt(VersionBlock, t, s) == Some((s, e))
  {
    SpellsBlockEnd(t, s, e, h);
    MatchAtBlock(t, s);
  }

  /** A record's block is found whole in what it is written into. */
  lemma LocateWritten(v: RuntimeVersion, layout: seq<Entry>, pre: string, post: string)
    requires PlainName(v.specName) && PlainName(v.implName)
    requires NoBlockBefore(pre + Write(v, layout) + post, |pre|)
    ensures LocateBlock(pre + Write(v, layout) + post) == Success(Write(v, layout))
  {
    HeaderFacts();
    forall e: Entry
      ensures '}' !in LineOf(v)(e)
    {
      if e.FieldLine? {
        LineAvoidsBrace(v, e.field);
      }
    }
    JoinedAvoids(LineOf(v), layout, '}');
    BlockCaptured(pre, Header(), Joined(LineOf(v), layout), post);
  }

  // ---------------------------------------------------------------- the fields

  /** A record's lines each start a line, and a field is anchored only in its own line, at its name. */
  lemma LinesAnchorOnce(v: RuntimeVersion, g: Field)
    requires PlainName(v.specName) && PlainName(v.implName)
    ensures NewLines(LineOf(v))
    ensures forall e, p: nat :: Anchor(LineOf(v)(e), p, g.Name()) ==> e == FieldLine(g) && p == 2
  {
    forall e, p: nat | Anchor(LineOf(v)(e), p, g.Name())
      ensures e == FieldLine(g) && p == 2
    {
      match e
      case FieldLine(f) => FieldLineAnchor(v, f, p, g);
      case Extra(_) => assert false;
    }
  }

  /**
   * In a block made of a header free of anchors, lines that anchor `g` only on its own line,
   * and a closing line, `g` is anchored nowhere before `g`'s first line.
   */
  lemma AnchorOnLine(hd: string, line: Entry -> string, order: seq<Entry>, g: Field, q: nat)
    requires NewLines(line) && FieldLine(g) in order
    requires forall p: nat :: !Anchor(hd, p, g.Name())
    requires forall f, p: nat :: Anchor(line(f), p, g.Name()) ==> f == FieldLine(g) && p == 2
    ensures Anchor(hd + Joined(line, order) + "\n}", q, g.Name()) ==> |hd| + Start(line, order, FieldLine(g)) + 2 <= q
  {
    var rest := Joined(line, order) + "\n}";
    var t := hd + rest;
    assert hd + Joined(line, order) + "\n}" == t;
    if Anchor(t, q, g.Name()) {
      NameChars(g);
      JoinedHead(line, order);
      AnchorSplit(hd, rest, q, g.Name());
      assert q >= |hd|;
      JoinedAnchor(line, order, q - |hd|, g.Name(), FieldLine(g));
    }
  }

  /** A piece of the middle of `hd + j + tail` found at `k` in `j`. */
  lemma InMiddle(hd: string, j: string, tail: string, k: nat, m: string)
    requires k + |m| <= |j| && j[k..k + |m|] == m
    ensures |hd| + k + |m| <= |hd + j + tail|
    ensures (hd + j + tail)[|hd| + k..|hd| + k + |m|] == m
  {
    SliceShift(hd, j + tail, k, m, hd + (j + tail));
    assert hd + j + tail == hd + (j + tail);
  }

  /** Where `g`'s first line sits in a block. */
  lemma LineInBlock(hd: string, line: Entry -> string, order: seq<Entry>, g: Entry)
    requires g in order
    ensures var t := hd + Joined(line, order) + "\n}";
            var at := |hd| + Start(line, order, g);
            && at + |line(g)| <= |t|
            && t[at..at + |line(g)|] == line(g)
  {
    JoinedAt(line, order, g);
    InMiddle(hd, Joined(line, order), "\n}", Start(line, order, g), line(g));
  }

  /** The block `t`: `g`'s first line sits at `at`, and `g` is anchored nowhere before that line. */
  lemma BlockAnchorFree(hd: string, line: Entry -> string, order: seq<Entry>, g: Field) returns (t: string, at: nat)
    requires NewLines(line) && FieldLine(g) in order
    requires forall q: nat :: !Anchor(hd, q, g.Name())
    requires forall f, q: nat :: Anchor(line(f), q, g.Name()) ==> f == FieldLine(g) && q == 2
    ensures t == hd + Joined(line, order) + "\n}"
    ensures at + |line(FieldLine(g))| <= |t| && t[at..at + |line(FieldLine(g))|] == line(FieldLine(g))
    ensures forall q :: 0 <= q < at + 2 ==> !Anchor(t, q, g.Name())
  {
    t := hd + Joined(line, order) + "\n}";
    at := |hd| + Start(line, order, FieldLine(g));
    LineInBlock(hd, line, order, FieldLine(g));
    forall q | 0 <= q < at + 2
      ensures !Anchor(t, q, g.Name())
    {
      AnchorOnLine(hd, line, order, g, q);
    }
  }

  /** A pattern that matches only where the field is anchored. */
  lemma MatchAnchored(t: string, q: nat, g: Field)
    requires q <= |t|
    ensures MatchAt(FieldPattern(g), t, q).Some? ==> Anchor(t, q, g.Name())
  {
    if MatchAt(FieldPattern(g), t, q).Some? {
      FieldMatchAnchored(t, q, g);
    }
  }

  /** Where a field is anchored nowhere, its pattern matches nowhere. */
  lemma NoMatchBeforeAnchor(t: string, e: nat, g: Field)
    requires e <= |t|
    requires forall q :: 0 <= q < e ==> !Anchor(t, q, g.Name())
    ensures forall q :: 0 <= q < e ==> MatchAt(FieldPattern(g), t, q).None?
  {
    forall q | 0 <= q < e
      ensures MatchAt(FieldPattern(g), t, q).None?
    {
      MatchAnchored(t, q, g);
    }
  }

  /** The capture of a pattern is the kept part of its leftmost match. */
  lemma CaptureIs(pat: Pattern, t: string, q: nat, a: nat, b: nat, w: string)
    requires q <= |t| && MatchAt(pat, t, q) == Some((a, b))
    requires forall q' :: 0 <= q' < q ==> MatchAt(pat, t, q').None?
    requires a <= b <= |t| && t[a..b] == w
    ensures Capture(pat, t) == Some(w)
  {
    FindIs(pat, t, 0, q);
  }

  /**
   * In a block made of a header free of anchors of `g`, lines that anchor `g` only on its
   * own line, and a closing line, `g`'s pattern captures the value on `g`'s first line.
   */
  lemma CaptureInBlock(hd: string, line: Entry -> string, order: seq<Entry>, g: Field, p: string, w: string, c: string)
    requires NewLines(line) && FieldLine(g) in order
    requires forall q: nat :: !Anchor(hd, q, g.Name())
    requires forall f, q: nat :: Anchor(line(f), q, g.Name()) ==> f == FieldLine(g) && q == 2
    requires line(FieldLine(g)) == "\n\t" + p + (w + c) && Spells(FieldPrefix(g), p) && ValueShape(g, w, c)
    ensures Capture(FieldPattern(g), hd + Joined(line, order) + "\n}") == Some(w)
  {
    var t, at := BlockAnchorFree(hd, line, order, g);
    CaptureOfLine(t, at, g, line(FieldLine(g)), p, w, c);
  }

  /**
   * A field's line at `at` in a text where the field is anchored nowhere before it: the
   * field's pattern captures the value written on that line.
   */
  lemma CaptureOfLine(t: string, at: nat, g: Field, l: string, p: string, w: string, c: string)
    requires l == "\n\t" + p + (w + c) && Spells(FieldPrefix(g), p) && ValueShape(g, w, c)
    requires at + |l| <= |t| && t[at..at + |l|] == l
    requires forall q :: 0 <= q < at + 2 ==> !Anchor(t, q, g.Name())
    ensures Capture(FieldPattern(g), t) == Some(w)
  {
    var q, n := LinePrefix(t, at, g, l, p, w, c);
    CaptureOfParts(t, q, g, n, w, c);
  }

  /** The line's prefix reading, value and closing, each where it sits in the text. */
  lemma LinePrefix(t: string, at: nat, g: Field, l: string, p: string, w: string, c: string) returns (q: nat, n: nat)
    requires l == "\n\t" + p + (w + c) && Spells(FieldPrefix(g), p)
    requires at + |l| <= |t| && t[at..at + |l|] == l
    ensures q == at + 2 && n == |p|
    ensures q + n + |w| + |c| <= |t|
    ensures Spells(FieldPrefix(g), t[q..q + n])
    ensures t[q + n..q + n + |w|] == w && t[q + n + |w|..q + n + |w| + |c|] == c
  {
    q, n := at + 2, |p|;
    LineLayoutOf(t, at, l, p, w, c);
    SpellsSlice(FieldPrefix(g), t[at + 2..at + 2 + |p|], p);
  }

  /** `CaptureOfLine`, with the prefix read over `n` characters from `q`, then the value and the closing. */
  lemma CaptureOfParts(t: string, q: nat, g: Field, n: nat, w: string, c: string)
    requires ValueShape(g, w, c)
    requires q + n + |w| + |c| <= |t|
    requires Spells(FieldPrefix(g), t[q..q + n])
    requires t[q + n..q + n + |w|] == w && t[q + n + |w|..q + n + |w| + |c|] == c
    requires forall q' :: 0 <= q' < q ==> !Anchor(t, q', g.Name())
    ensures Capture(FieldPattern(g), t) == Some(w)
  {
    ValueLayout(t, g, q + n, w, c);
    CaptureOfValue(t, q, g, q + n, q + n + |w|, w);
  }

  /** `CaptureOfLine`, with the prefix read from `q` to `a` and the value `w` from `a` to `b`. */
  lemma CaptureOfValue(t: string, q: nat, g: Field, a: nat, b: nat, w: string)
    requires q <= a <= b <= |t| && Spells(FieldPrefix(g), t[q..a]) && ValueAt(g, t, a, b) && t[a..b] == w
    requires forall q' :: 0 <= q' < q ==> !Anchor(t, q', g.Name())
    ensures Capture(FieldPattern(g), t) == Some(w)
  {
    FieldMatches(t, q, g, a, b);
    CaptureAt(t, q, g, a, b, w);
  }

  /** A match at `q`, with no anchor of the field before it, is the field's capture. */
  lemma CaptureAt(t: string, q: nat, g: Field, a: nat, b: nat, w: string)
    requires q <= a <= b <= |t| && MatchAt(FieldPattern(g), t, q) == Some((a, b)) && t[a..b] == w
    requires forall q' :: 0 <= q' < q ==> !Anchor(t, q', g.Name())
    ensures Capture(FieldPattern(g), t) == Some(w)
  {
    NoMatchBeforeAnchor(t, q, g);
    CaptureIs(FieldPattern(g), t, q, a, b, w);
  }

  /** Each field of the order is read back from the block as what was written for it. */
  lemma FieldCaptured(v: RuntimeVersion, layout: seq<Entry>, g: Field)
    requires PlainName(v.specName) && PlainName(v.implName)
    requires FieldLine(g) in layout
    ensures Capture(FieldPattern(g), Write(v, layout)) == Some(Written(v, g))
  {
    var p := LineParts(v, g);
    WrittenShape(v, g);
    LinesAnchorOnce(v, g);
    HeaderAnchorFree(g);
    assert LineOf(v)(FieldLine(g)) == Line(v, g);
    CaptureInBlock(Header(), LineOf(v), layout, g, p, Written(v, g), Closing(g));
  }

  /** A text field whose pattern captures its written value reads as that value. */
  lemma TextRead(block: string, v: RuntimeVersion, f: Field)
    requires f.IsText() && Capture(FieldPattern(f), block) == Some(Written(v, f))
    ensures TextField(block, f) == Success(Written(v, f))
  {
  }

  /** A number field whose pattern captures its written numeral reads as its value. */
  lemma NumberRead(block: string, v: RuntimeVersion, f: Field)
    requires !f.IsText() && Capture(FieldPattern(f), block) == Some(Written(v, f))
    ensures NumberFieldValue(block, f) == Success(NumberOf(v, f))
  {
    assert Written(v, f) == Text(NumberOf(v, f));
    ParseText(NumberOf(v, f));
  }

  /** Each field of a record reads back from its written block as its value. */
  lemma FieldRead(v: RuntimeVersion, order: seq<Entry>, f: Field)
    requires PlainName(v.specName) && PlainName(v.implName)
    requires FieldLine(f) in order
    ensures match f
            case SpecName => TextField(Write(v, order), f) == Success(v.specName)
            case ImplName => TextField(Write(v, order), f) == Success(v.implName)
            case AuthoringVersion => NumberFieldValue(Write(v, order), f) == Success(v.authoringVersion)
            case SpecVersion => NumberFieldValue(Write(v, order), f) == Success(v.specVersion)
            case ImplVersion => NumberFieldValue(Write(v, order), f) == Success(v.implVersion)
            case TransactionVersion => NumberFieldValue(Write(v, order), f) == Success(v.transactionVersion)
  {
    FieldCaptured(v, order, f);
    if f.IsText() {
      TextRead(Write(v, order), v, f);
    } else {
      NumberRead(Write(v, order), v, f);
    }
  }

  /** Extraction returns the record whose every field reads as its value from the located block. */
  lemma ExtractFrom(s: string, block: string, v: RuntimeVersion)
    requires LocateBlock(s) == Success(block)
    requires TextField(block, SpecName) == Success(v.specName)
    requires TextField(block, ImplName) == Success(v.implName)
    requires NumberFieldValue(block, AuthoringVersion) == Success(v.authoringVersion)
    requires NumberFieldValue(block, SpecVersion) == Success(v.specVersion)
    requires NumberFieldValue(block, ImplVersion) == Success(v.implVersion)
    requires NumberFieldValue(block, TransactionVersion) == Success(v.transactionVersion)
    ensures Extract(s) == Success(v)
  {
  }

  /**
   * A record written as a `VERSION` block, with every field on a line of its own among any
   * lines that hold no field, in any order, after a preamble where no block match starts and
   * followed by any text, is extracted as that record.
   */
  lemma ExtractWritten(v: RuntimeVersion, layout: seq<Entry>, pre: string, post: string)
    requires PlainName(v.specName) && PlainName(v.implName)
    requires forall f: Field :: FieldLine(f) in layout
    requires NoBlockBefore(pre + Write(v, layout) + post, |pre|)
    ensures Extract(pre + Write(v, layout) + post) == Success(v)
  {
    LocateWritten(v, layout, pre, post);
    FieldRead(v, layout, SpecName);
    FieldRead(v, layout, ImplName);
    FieldRead(v, layout, AuthoringVersion);
    FieldRead(v, layout, SpecVersion);
    FieldRead(v, layout, ImplVersion);
    FieldRead(v, layout, TransactionVersion);
    ExtractFrom(pre + Write(v, layout) + post, Write(v, layout), v);
  }

  /** The order and the other lines of a block do not change what is extracted from it. */
  lemma OrderIrrelevant(v: RuntimeVersion, layout1: seq<Entry>, layout2: seq<Entry>, pre: string, post: string)
    requires PlainName(v.specName) && PlainName(v.implName)
    requires forall f: Field :: FieldLine(f) in layout1
    requires forall f: Field :: FieldLine(f) in layout2
    requires NoBlockBefore(pre + Write(v, layout1) + post, |pre|)
    requires NoBlockBefore(pre + Write(v, layout2) + post, |pre|)
    ensures Extract(pre + Write(v, layout1) + post) == Extract(pre + Write(v, layout2) + post)
  {
    ExtractWritten(v, layout1, pre, post);
    ExtractWritten(v, layout2, pre, post);
  }

  /** A line that sets `n` to `r`. */
  function FieldlessLine(n: string, r: string): (line: string) {
    "\n\t" + n + ":" + r
  }

  /**
   * A line `\n\t n: r` whose name `n` ends in no field's name and that holds no other `:`
   * and no `}` holds no field.
   */
  lemma ExtraLineOf(n: string, r: string)
    requires |n| > 0 && n[|n| - 1] != ' ' && ':' !in n && ':' !in r && '}' !in n && '}' !in r
    requires forall g: Field :: |g.Name()| <= |n| ==> n[|n| - |g.Name()|..] != g.Name()
    ensures IsExtraLine(FieldlessLine(n, r))
  {
    var l := FieldlessLine(n, r);
    forall g: Field, q: nat
      ensures !Anchor(l, q, g.Name())
    {
      if Anchor(l, q, g.Name()) {
        NameChars(g);
        LineAnchor(n, r, q, g.Name());
      }
    }
  }

  /** The runtime's `apis` line: its name is shorter than every field's. */
  lemma ApisLine()
    ensures IsExtraLine(FieldlessLine("apis", " RUNTIME_API_VERSIONS,"))
  {
    var r := " RUNTIME_API_VERSIONS,";
    assert ':' !in r && '}' !in r by {
      assert forall k :: 0 <= k < |r| ==> r[k] != ':' && r[k] != '}';
    }
    forall g: Field
      ensures |g.Name()| > 4
    {
      NameTag(g);
    }
    ExtraLineOf("apis", r);
  }

  /** The runtime's `state_version` line: its name ends in no field's name. */
  lemma StateVersionLine()
    ensures IsExtraLine(FieldlessLine("state_version", " 1,"))
  {
    var n := "state_version";
    forall g: Field | |g.Name()| <= |n|
      ensures n[|n| - |g.Name()|..] != g.Name()
    {
      NameTag(g);
    }
    ExtraLineOf(n, " 1,");
  }

  /**
   * The lines of Substrate's node runtime's block: its six fields in their order, with its
   * `apis` line before `transaction_version` and its `state_version` line last.
   */
  function NodeLayout(): (layout: seq<Entry>) {
    ApisLine();
    StateVersionLine();
    [FieldLine(SpecName), FieldLine(ImplName), FieldLine(AuthoringVersion), FieldLine(SpecVersion),
     FieldLine(ImplVersion), Extra(FieldlessLine("apis", " RUNTIME_API_VERSIONS,")), FieldLine(TransactionVersion),
     Extra(FieldlessLine("state_version", " 1,"))]
  }

  lemma NodePlain()
    ensures PlainName("node")
  {
  }

  lemma NodeLayoutFields()
    ensures forall f: Field :: FieldLine(f) in NodeLayout()
  {
    var layout := NodeLayout();
    forall f: Field
      ensures FieldLine(f) in layout
    {
      match f
      case SpecName => assert layout[0] == FieldLine(f);
      case ImplName => assert layout[1] == FieldLine(f);
      case AuthoringVersion => assert layout[2] == FieldLine(f);
      case SpecVersion => assert layout[3] == FieldLine(f);
      case ImplVersion => assert layout[4] == FieldLine(f);
      case TransactionVersion => assert layout[6] == FieldLine(f);
    }
  }

  /**
   * The node runtime's block, `spec_name` and `impl_name` `"node"`, authoring version 10,
   * spec version 9180, impl version 0, transaction version 14, laid out as that runtime lays
   * it out and preceded by any text without `pub`, is read back as those values.
   */
  lemma NodeExample(pre: string, post: string)
    requires WithoutPub(pre)
    ensures Extract(pre + Write(RuntimeVersion("node", "node", 10, 9180, 0, 14), NodeLayout()) + post)
            == Success(RuntimeVersion("node", "node", 10, 9180, 0, 14))
  {
    var v := RuntimeVersion("node", "node", 10, 9180, 0, 14);
    NodePlain();
    WrittenStartsPub(v, NodeLayout());
    PreambleWithoutPub(pre, Write(v, NodeLayout()), post);
    NodeLayoutFields();
    ExtractWritten(v, NodeLayout(), pre, post);
  }
}
