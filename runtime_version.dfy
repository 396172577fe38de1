/**
 * `extract_runtime_version` of `src/substrate/node.rs`: find the first
 * `pub const VERSION: RuntimeVersion = RuntimeVersion { … }` block of a runtime's
 * source text and read six fields out of it.
 *
 * Each regular expression of the source is a fixed sequence of literal words and
 * runs of spaces (a `Prefix`), followed by one capture. Every lazy run of spaces in
 * those expressions is followed by a word that starts with another character, or by
 * `\d`, so the only count that lets the rest match is the whole run: the matchers
 * below take maximal runs, and `SpellsIffMatch` shows that this agrees with the
 * expressions' own reading of the runs. A `captures(..).unwrap()` or `parse().unwrap()`
 * that would panic is a `Failure` here.
 */
module RuntimeVersionExtractor {
  import opened Wrappers
  import opened Decimal

  /** The six fields read out of a runtime's `VERSION` block. */
  datatype RuntimeVersion = RuntimeVersion(
    specName: string,
    implName: string,
    authoringVersion: u32,
    specVersion: u32,
    implVersion: u32,
    transactionVersion: u32)

  datatype Field = SpecName | ImplName | AuthoringVersion | SpecVersion | ImplVersion | TransactionVersion
  {
    /** The field's name as it is written in the block. */
    function Name(): (n: string) {
      match this
      case SpecName => "spec_name"
      case ImplName => "impl_name"
      case AuthoringVersion => "authoring_version"
      case SpecVersion => "spec_version"
      case ImplVersion => "impl_version"
      case TransactionVersion => "transaction_version"
    }

    /** The two fields written as `create_runtime_str!("…")`; the others are numbers. */
    predicate IsText() {
      SpecName? || ImplName?
    }
  }

  /** The value of a name field. */
  function NameOf(v: RuntimeVersion, f: Field): (name: string)
    requires f.IsText()
  {
    if f == SpecName then v.specName else v.implName
  }

  /** The value of a number field. */
  function NumberOf(v: RuntimeVersion, f: Field): (n: u32)
    requires !f.IsText()
  {
    match f
    case AuthoringVersion => v.authoringVersion
    case SpecVersion => v.specVersion
    case ImplVersion => v.implVersion
    case TransactionVersion => v.transactionVersion
  }

  /** Why extraction fails: the block, a field or a well-formed `u32` is missing. */
  datatype ExtractError = BlockNotFound | FieldNotFound(field: Field) | MalformedInteger(field: Field)

  // ---------------------------------------------------------------- text positions

  /** `w` occurs in `t` at `i`. */
  predicate LitAt(t: string, i: nat, w: string) {
    i + |w| <= |t| && t[i..i + |w|] == w
  }

  predicate AllSpaces(s: string) {
    forall k :: 0 <= k < |s| ==> s[k] == ' '
  }

  /** No newline in `t[a..b]`. */
  predicate OnOneLine(t: string, a: nat, b: nat)
    requires a <= b <= |t|
  {
    forall k :: a <= k < b ==> t[k] != '\n'
  }

  /** The end of the run of spaces that starts at `i`. */
  function SkipSpaces(t: string, i: nat): (j: nat)
    requires i <= |t|
    ensures i <= j <= |t|
    ensures forall k :: i <= k < j ==> t[k] == ' '
    ensures j == |t| || t[j] != ' '
    decreases |t| - i
  {
    if i < |t| && t[i] == ' ' then SkipSpaces(t, i + 1) else i
  }

  /** The end of the run of ASCII digits that starts at `i`. */
  function DigitsEnd(t: string, i: nat): (j: nat)
    requires i <= |t|
    ensures i <= j <= |t|
    ensures forall k :: i <= k < j ==> IsDigit(t[k])
    ensures j == |t| || !IsDigit(t[j])
    decreases |t| - i
  {
    if i < |t| && IsDigit(t[i]) then DigitsEnd(t, i + 1) else i
  }

  /** The first `c` at or after `i`. */
  function IndexOf(t: string, c: char, i: nat): (r: Option<nat>)
    requires i <= |t|
    ensures r.Some? ==> i <= r.value < |t| && t[r.value] == c && forall k :: i <= k < r.value ==> t[k] != c
    ensures r.None? ==> forall k :: i <= k < |t| ==> t[k] != c
    decreases |t| - i
  {
    if i == |t| then None
    else if t[i] == c then Some(i)
    else IndexOf(t, c, i + 1)
  }

  // ---------------------------------------------------------------- literal prefixes

  /** The literal part of a pattern: words and runs of spaces (`+?` when `atLeastOne`, else `*?`). */
  datatype Prefix = Done | Word(w: string, next: Prefix) | Spaces(atLeastOne: bool, next: Prefix)

  /** Every word is non-empty and starts with a non-space, and no two runs of spaces are adjacent. */
  predicate WellFormed(p: Prefix) {
    match p
    case Done => true
    case Word(w, next) => |w| > 0 && w[0] != ' ' && WellFormed(next)
    case Spaces(_, next) => !next.Spaces? && WellFormed(next)
  }

  /** The prefix ends with a run of spaces. */
  predicate EndsInSpaces(p: Prefix) {
    match p
    case Done => false
    case Word(_, next) => EndsInSpaces(next)
    case Spaces(_, next) => next.Done? || EndsInSpaces(next)
  }

  /**
   * What the prefix reads, as the regular expression defines it: its words in order,
   * and in place of each run any number of spaces (at least one for `+?`).
   */
  ghost predicate Spells(p: Prefix, s: string) {
    match p
    case Done => s == []
    case Word(w, next) => w <= s && Spells(next, s[|w|..])
    case Spaces(atLeastOne, next) =>
      exists k :: (if atLeastOne then 1 else 0) <= k <= |s| && AllSpaces(s[..k]) && Spells(next, s[k..])
  }

  /** Where a match of the prefix that starts at `i` ends, taking every run of spaces whole. */
  function MatchPrefix(t: string, i: nat, p: Prefix): (r: Option<nat>)
    requires i <= |t|
    ensures r.Some? ==> i <= r.value <= |t|
    decreases p
  {
    match p
    case Done => Some(i)
    case Word(w, next) => if LitAt(t, i, w) then MatchPrefix(t, i + |w|, next) else None
    case Spaces(atLeastOne, next) =>
      var j := SkipSpaces(t, i);
      if atLeastOne && j == i then None else MatchPrefix(t, j, next)
  }

  /** One run of spaces, taken whole. */
  lemma SpacesStep(t: string, i: nat, atLeastOne: bool, next: Prefix)
    requires i <= |t|
    ensures MatchPrefix(t, i, Spaces(atLeastOne, next))
         == if atLeastOne && SkipSpaces(t, i) == i then None else MatchPrefix(t, SkipSpaces(t, i), next)
  {
  }

  /** Every match of a prefix reads as the expression allows. */
  lemma {:induction false} MatchSpells(t: string, i: nat, p: Prefix, e: nat)
    requires i <= e <= |t|
    requires MatchPrefix(t, i, p) == Some(e)
    ensures Spells(p, t[i..e])
    decreases p
  {
    var s := t[i..e];
    match p
    case Done =>
    case Word(w, next) =>
      assert s[|w|..] == t[i + |w|..e];
      MatchSpells(t, i + |w|, next, e);
    case Spaces(atLeastOne, next) =>
      var j := SkipSpaces(t, i);
      assert s[..j - i] == t[i..j];
      assert s[j - i..] == t[j..e];
      MatchSpells(t, j, next, e);
  }

  /**
   * A run of spaces that the reading lets stop at `i + k` stops where the run ends,
   * when a word with another first character or a non-space at `e` comes next.
   */
  lemma RunIsWhole(t: string, i: nat, k: nat, next: Prefix, e: nat)
    requires i + k <= e <= |t|
    requires WellFormed(next) && !next.Spaces?
    requires next.Done? ==> e < |t| && t[e] != ' '
    requires AllSpaces(t[i..e][..k]) && Spells(next, t[i..e][k..])
    ensures SkipSpaces(t, i) == i + k
  {
    var s := t[i..e];
    assert forall m :: i <= m < i + k ==> t[m] == s[..k][m - i];
    if next.Word? {
      assert next.w <= s[k..];
      assert t[i + k] == next.w[0];
    }
  }

  /**
   * Conversely, for a well-formed prefix every reading the expression allows is the
   * match that takes runs whole: a lazy run can only stop where the next word starts,
   * after the last space (and, when the prefix ends with a run, a non-space follows it,
   * because a digit comes next).
   */
  lemma {:induction false} SpellsMatch(t: string, i: nat, p: Prefix, e: nat)
    requires WellFormed(p)
    requires i <= e <= |t|
    requires EndsInSpaces(p) ==> e < |t| && t[e] != ' '
    requires Spells(p, t[i..e])
    ensures MatchPrefix(t, i, p) == Some(e)
    decreases p, 1
  {
    match p
    case Done =>
    case Word(w, next) => SpellsMatchWord(t, i, w, next, e);
    case Spaces(atLeastOne, next) => SpellsMatchSpaces(t, i, atLeastOne, next, e);
  }

  lemma {:induction false} SpellsMatchWord(t: string, i: nat, w: string, next: Prefix, e: nat)
    requires WellFormed(Word(w, next))
    requires i <= e <= |t|
    requires EndsInSpaces(next) ==> e < |t| && t[e] != ' '
    requires Spells(Word(w, next), t[i..e])
    ensures MatchPrefix(t, i, Word(w, next)) == Some(e)
    decreases Word(w, next), 0
  {
    WordRead(t, i, w, e);
    SpellsMatch(t, i + |w|, next, e);
  }

  lemma {:induction false} SpellsMatchSpaces(t: string, i: nat, atLeastOne: bool, next: Prefix, e: nat)
    requires WellFormed(Spaces(atLeastOne, next))
    requires i <= e <= |t|
    requires EndsInSpaces(Spaces(atLeastOne, next)) ==> e < |t| && t[e] != ' '
    requires Spells(Spaces(atLeastOne, next), t[i..e])
    ensures MatchPrefix(t, i, Spaces(atLeastOne, next)) == Some(e)
    decreases Spaces(atLeastOne, next), 0
  {
    var k := SpellsRun(t, i, atLeastOne, next, e);
    assert WellFormed(next) && (EndsInSpaces(next) ==> EndsInSpaces(Spaces(atLeastOne, next)));
    SpellsMatch(t, i + k, next, e);
    SpacesStep(t, i, atLeastOne, next);
  }

  /** A word that `t[i..e]` starts with occurs at `i`, and the rest of the reading starts after it. */
  lemma WordRead(t: string, i: nat, w: string, e: nat)
    requires i <= e <= |t| && w <= t[i..e]
    ensures LitAt(t, i, w) && t[i..e][|w|..] == t[i + |w|..e]
  {
    assert t[i..i + |w|] == t[i..e][..|w|];
  }

  /** The run a reading of `Spaces(atLeastOne, next)` takes is the whole run. */
  lemma SpellsRun(t: string, i: nat, atLeastOne: bool, next: Prefix, e: nat) returns (k: nat)
    requires WellFormed(Spaces(atLeastOne, next))
    requires i <= e <= |t|
    requires EndsInSpaces(Spaces(atLeastOne, next)) ==> e < |t| && t[e] != ' '
    requires Spells(Spaces(atLeastOne, next), t[i..e])
    ensures i + k <= e && SkipSpaces(t, i) == i + k && (atLeastOne ==> k > 0)
    ensures Spells(next, t[i + k..e])
  {
    var s := t[i..e];
    var lo := if atLeastOne then 1 else 0;
    k :| lo <= k <= |s| && AllSpaces(s[..k]) && Spells(next, s[k..]);
    RunIsWhole(t, i, k, next, e);
    assert s[k..] == t[i + k..e];
  }

  /** Taking runs whole and the expression's reading agree. */
  lemma SpellsIffMatch(t: string, i: nat, p: Prefix, e: nat)
    requires WellFormed(p)
    requires i <= e <= |t|
    requires EndsInSpaces(p) ==> e < |t| && t[e] != ' '
    ensures MatchPrefix(t, i, p) == Some(e) <==> Spells(p, t[i..e])
  {
    if MatchPrefix(t, i, p) == Some(e) {
      MatchSpells(t, i, p, e);
    }
    if Spells(p, t[i..e]) {
      SpellsMatch(t, i, p, e);
    }
  }

  /** `pub +?const +?VERSION *?: +?RuntimeVersion +?= +?RuntimeVersion +?\{` */
  const BlockHeader: Prefix := Word("pub", Spaces(true, Word("const", Spaces(true, Word("VERSION", HeaderColon)))))
  const HeaderColon: Prefix := Spaces(false, Word(":", Spaces(true, Word("RuntimeVersion", HeaderEquals))))
  const HeaderEquals: Prefix := Spaces(true, Word("=", Spaces(true, Word("RuntimeVersion", HeaderBrace))))
  const HeaderBrace: Prefix := Spaces(true, Word("{", Done))

  /** After a field's name in `F *?: *?create_runtime_str! *?\("(.+?)"\)`, up to the capture. */
  const NameTail: Prefix := Spaces(false, Word(":", Spaces(false, Word("create_runtime_str!", Spaces(false, Word("(\"", Done))))))

  /** After a field's name in `F *?: *?(\d+)`, up to the capture. */
  const NumberTail: Prefix := Spaces(false, Word(":", Spaces(false, Done)))

  function NamePrefix(f: Field): (p: Prefix) {
    Word(f.Name(), NameTail)
  }

  function NumberPrefix(f: Field): (p: Prefix) {
    Word(f.Name(), NumberTail)
  }

  lemma HeaderWellFormed()
    ensures WellFormed(BlockHeader) && !EndsInSpaces(BlockHeader)
  {
    assert WellFormed(HeaderBrace) && !EndsInSpaces(HeaderBrace);
    assert WellFormed(HeaderEquals) && !EndsInSpaces(HeaderEquals);
    assert WellFormed(HeaderColon) && !EndsInSpaces(HeaderColon);
  }

  lemma PrefixesWellFormed(f: Field)
    ensures WellFormed(NamePrefix(f)) && !EndsInSpaces(NamePrefix(f))
    ensures WellFormed(NumberPrefix(f)) && EndsInSpaces(NumberPrefix(f))
  {
    assert WellFormed(NameTail) && !EndsInSpaces(NameTail);
    assert WellFormed(NumberTail) && EndsInSpaces(NumberTail);
  }

  // ---------------------------------------------------------------- the three patterns

  /** Where the block's header ends, when it starts at `q`. */
  function HeaderEnd(t: string, q: nat): (r: Option<nat>)
    requires q <= |t|
    ensures r.Some? ==> q <= r.value <= |t|
  {
    MatchPrefix(t, q, BlockHeader)
  }

  /**
   * The end of a `VERSION` block starting at `q`: the header, then at least one
   * character of any kind, up to and including the first `}` after it.
   */
  function BlockEnd(t: string, q: nat): (r: Option<nat>)
    requires q <= |t|
    ensures r.Some? ==> q < r.value <= |t|
  {
    var h := HeaderEnd(t, q);
    if h.None? || h.value == |t| then None else ThroughBrace(t, h.value + 1)
  }

  /** Just past the first `}` at or after `i`. */
  function ThroughBrace(t: string, i: nat): (r: Option<nat>)
    requires 0 < i <= |t|
    ensures r.Some? ==> i < r.value <= |t| && t[r.value - 1] == '}'
    ensures r.Some? ==> forall k :: i <= k < r.value - 1 ==> t[k] != '}'
    ensures r.None? ==> forall k :: i <= k < |t| ==> t[k] != '}'
  {
    match IndexOf(t, '}', i)
    case None => None
    case Some(e) => Some(e + 1)
  }

  /**
   * `"(.+?)"\)` from `a`: the end of the shortest non-empty text on one line that is
   * followed by `")`.
   */
  function CloseQuote(t: string, a: nat): (r: Option<nat>)
    requires a <= |t|
    ensures r.Some? ==> a < r.value && LitAt(t, r.value, "\")") && OnOneLine(t, a, r.value)
    ensures r.Some? ==> forall m :: a < m < r.value ==> !LitAt(t, m, "\")")
    ensures r.None? ==> forall m :: a < m <= |t| && OnOneLine(t, a, m) ==> !LitAt(t, m, "\")")
  {
    if a == |t| || t[a] == '\n' then None else CloseQuoteFrom(t, a, a + 1)
  }

  function CloseQuoteFrom(t: string, a: nat, b: nat): (r: Option<nat>)
    requires a < b <= |t| && OnOneLine(t, a, b)
    requires forall m :: a < m < b ==> !LitAt(t, m, "\")")
    ensures r.Some? ==> b <= r.value && LitAt(t, r.value, "\")") && OnOneLine(t, a, r.value)
    ensures r.Some? ==> forall m :: a < m < r.value ==> !LitAt(t, m, "\")")
    ensures r.None? ==> forall m :: a < m <= |t| && OnOneLine(t, a, m) ==> !LitAt(t, m, "\")")
    decreases |t| - b
  {
    if LitAt(t, b, "\")") then Some(b)
    else if b == |t| || t[b] == '\n' then None
    else CloseQuoteFrom(t, a, b + 1)
  }

  /** The block pattern and the two field patterns. */
  datatype Pattern = VersionBlock | NameField(field: Field) | NumberField(field: Field)

  /**
   * A match of `p` starting at `q`, as the bounds of what is kept of it: the whole
   * match for the block, the capture group for a field.
   */
  function MatchAt(p: Pattern, t: string, q: nat): (r: Option<(nat, nat)>)
    requires q <= |t|
    ensures r.Some? ==> q <= r.value.0 <= r.value.1 <= |t|
    ensures r.Some? && p.NumberField? ==>
              r.value.0 < r.value.1 && forall k :: r.value.0 <= k < r.value.1 ==> IsDigit(t[k])
  {
    match p
    case VersionBlock =>
      (match BlockEnd(t, q)
       case None => None
       case Some(e) => Some((q, e)))
    case NameField(f) =>
      (match MatchPrefix(t, q, NamePrefix(f))
       case None => None
       case Some(a) =>
         match CloseQuote(t, a)
         case None => None
         case Some(b) => Some((a, b)))
    case NumberField(f) =>
      (match MatchPrefix(t, q, NumberPrefix(f))
       case None => None
       case Some(a) =>
         var b := DigitsEnd(t, a);
         if b == a then None else Some((a, b)))
  }

  /** The least position from `from` to `n` where `m` holds. */
  function First(m: nat -> bool, from: nat, n: nat): (r: Option<nat>)
    requires from <= n
    ensures r.Some? ==> from <= r.value <= n && m(r.value)
    ensures forall q :: from <= q <= n && (r.None? || q < r.value) ==> !m(q)
    decreases n - from
  {
    if m(from) then Some(from)
    else if from == n then None
    else First(m, from + 1, n)
  }

  /** The positions of `t` where `p` matches. */
  function Matches(p: Pattern, t: string): (m: nat -> bool) {
    (q: nat) => q <= |t| && MatchAt(p, t, q).Some?
  }

  /** Where the leftmost match of `p` at or after `from` starts. */
  function Find(p: Pattern, t: string, from: nat): (r: Option<nat>)
    requires from <= |t|
    ensures r.Some? ==> from <= r.value <= |t| && MatchAt(p, t, r.value).Some?
    ensures forall q :: from <= q <= |t| && (r.None? || q < r.value) ==> MatchAt(p, t, q).None?
  {
    FirstMatch(p, t, from);
    First(Matches(p, t), from, |t|)
  }

  /** What `First` says about `Matches`, read back as matches. */
  lemma FirstMatch(p: Pattern, t: string, from: nat)
    requires from <= |t|
    ensures var r := First(Matches(p, t), from, |t|);
            && (r.Some? ==> MatchAt(p, t, r.value).Some?)
            && forall q :: from <= q <= |t| && (r.None? || q < r.value) ==> MatchAt(p, t, q).None?
  {
    var r := First(Matches(p, t), from, |t|);
    forall q | from <= q <= |t| && (r.None? || q < r.value)
      ensures MatchAt(p, t, q).None?
    {
      assert !Matches(p, t)(q);
    }
  }

  /** `Regex::captures(t)`, reduced to the group the source reads. */
  function Capture(p: Pattern, t: string): (r: Option<string>)
    ensures r.Some? && p.NumberField? ==> |r.value| > 0 && AllDigits(r.value)
  {
    match Find(p, t, 0)
    case None => None
    case Some(q) =>
      var span := MatchAt(p, t, q).value;
      Some(t[span.0..span.1])
  }

  // ---------------------------------------------------------------- extraction

  function LocateBlock(s: string): (r: Result<string, ExtractError>) {
    match Capture(VersionBlock, s)
    case None => Failure(BlockNotFound)
    case Some(block) => Success(block)
  }

  function TextField(block: string, f: Field): (r: Result<string, ExtractError>) {
    match Capture(NameField(f), block)
    case None => Failure(FieldNotFound(f))
    case Some(text) => Success(text)
  }

  function NumberFieldValue(block: string, f: Field): (r: Result<u32, ExtractError>) {
    match Capture(NumberField(f), block)
    case None => Failure(FieldNotFound(f))
    case Some(digits) =>
      match ParseU32(digits)
      case None => Failure(MalformedInteger(f))
      case Some(n) => Success(n)
  }

  /** `extract_runtime_version`. */
  function Extract(s: string): (r: Result<RuntimeVersion, ExtractError>) {
    var block :- LocateBlock(s);
    var specName :- TextField(block, SpecName);
    var implName :- TextField(block, ImplName);
    var authoringVersion :- NumberFieldValue(block, AuthoringVersion);
    var specVersion :- NumberFieldValue(block, SpecVersion);
    var implVersion :- NumberFieldValue(block, ImplVersion);
    var transactionVersion :- NumberFieldValue(block, TransactionVersion);
    Success(RuntimeVersion(specName, implName, authoringVersion, specVersion, implVersion, transactionVersion))
  }

  // ---------------------------------------------------------------- what the patterns match

  /** The header reads as the expression allows exactly where the match of its prefix ends. */
  lemma HeaderIff(t: string, q: nat, h: nat)
    requires q <= h <= |t|
    ensures HeaderEnd(t, q) == Some(h) <==> Spells(BlockHeader, t[q..h])
  {
    HeaderWellFormed();
    SpellsIffMatch(t, q, BlockHeader, h);
  }

  lemma ThroughBraceIs(t: string, i: nat, e: nat)
    requires 0 < i < e <= |t| && t[e - 1] == '}'
    requires forall k :: i <= k < e - 1 ==> t[k] != '}'
    ensures ThroughBrace(t, i) == Some(e)
  {
  }

  lemma MatchAtBlock(t: string, q: nat)
    requires q <= |t|
    ensures MatchAt(VersionBlock, t, q) == if BlockEnd(t, q).Some? then Some((q, BlockEnd(t, q).value)) else None
  {
  }

  /** What a block that `BlockEnd` finds is made of. */
  lemma BlockEndSpells(t: string, q: nat, e: nat)
    requires q <= |t| && BlockEnd(t, q) == Some(e)
    ensures exists h :: q <= h && h + 1 < e <= |t| && Spells(BlockHeader, t[q..h]) && t[e - 1] == '}'
                        && forall k :: h + 1 <= k < e - 1 ==> t[k] != '}'
  {
    var h := HeaderEnd(t, q).value;
    HeaderIff(t, q, h);
    assert h + 1 < e <= |t| && t[e - 1] == '}' && forall k :: h + 1 <= k < e - 1 ==> t[k] != '}';
  }

  /** A header, a character, and text up to the first `}` after it, is what `BlockEnd` finds. */
  lemma SpellsBlockEnd(t: string, q: nat, e: nat, h: nat)
    requires q <= h && h + 1 < e <= |t| && Spells(BlockHeader, t[q..h]) && t[e - 1] == '}'
    requires forall k :: h + 1 <= k < e - 1 ==> t[k] != '}'
    ensures BlockEnd(t, q) == Some(e)
  {
    HeaderIff(t, q, h);
    BlockEndIs(t, q, h, e);
  }

  /** A header that ends at `h`, then a character and text up to the first `}`, is what `BlockEnd` finds. */
  lemma BlockEndIs(t: string, q: nat, h: nat, e: nat)
    requires q <= h && h + 1 < e <= |t| && HeaderEnd(t, q) == Some(h) && t[e - 1] == '}'
    requires forall k :: h + 1 <= k < e - 1 ==> t[k] != '}'
    ensures BlockEnd(t, q) == Some(e)
  {
    ThroughBraceIs(t, h + 1, e);
  }

  /**
   * The block pattern matches from `q` to `e` exactly when the text there reads as the
   * header, at least one character follows it, and `e` is just past the first `}` after
   * that character.
   */
  lemma BlockMatchIff(t: string, q: nat, e: nat)
    requires q <= |t|
    ensures MatchAt(VersionBlock, t, q) == Some((q, e)) <==>
              exists h :: q <= h && h + 1 < e <= |t| && Spells(BlockHeader, t[q..h]) && t[e - 1] == '}'
                          && forall k :: h + 1 <= k < e - 1 ==> t[k] != '}'
  {
    MatchAtBlock(t, q);
    if BlockEnd(t, q) == Some(e) {
      BlockEndSpells(t, q, e);
    }
    if exists h :: q <= h && h + 1 < e <= |t| && Spells(BlockHeader, t[q..h]) && t[e - 1] == '}'
                   && forall k :: h + 1 <= k < e - 1 ==> t[k] != '}' {
      var h :| q <= h && h + 1 < e <= |t| && Spells(BlockHeader, t[q..h]) && t[e - 1] == '}'
               && forall k :: h + 1 <= k < e - 1 ==> t[k] != '}';
      SpellsBlockEnd(t, q, e, h);
    }
  }

  /** A field's prefix reads as the expression allows exactly where the match of it ends. */
  lemma FieldPrefixIff(t: string, q: nat, f: Field, a: nat)
    requires q <= a <= |t|
    ensures MatchPrefix(t, q, NamePrefix(f)) == Some(a) <==> Spells(NamePrefix(f), t[q..a])
    ensures a < |t| && t[a] != ' ' ==>
              (MatchPrefix(t, q, NumberPrefix(f)) == Some(a) <==> Spells(NumberPrefix(f), t[q..a]))
  {
    PrefixesWellFormed(f);
    SpellsIffMatch(t, q, NamePrefix(f), a);
    if a < |t| && t[a] != ' ' {
      SpellsIffMatch(t, q, NumberPrefix(f), a);
    }
  }

  lemma CloseQuoteIs(t: string, a: nat, b: nat)
    requires a < b && LitAt(t, b, "\")") && OnOneLine(t, a, b)
    requires forall m :: a < m < b ==> !LitAt(t, m, "\")")
    ensures CloseQuote(t, a) == Some(b)
  {
  }

  /**
   * A name pattern matches at `q` with capture `t[a..b]` exactly when the text from `q`
   * reads as the field's name, `:` and `create_runtime_str!("` with only spaces between
   * them, and `t[a..b]` is the shortest non-empty text on one line followed by `")`.
   */
  lemma NameMatchIff(t: string, q: nat, f: Field, a: nat, b: nat)
    requires q <= |t|
    ensures MatchAt(NameField(f), t, q) == Some((a, b)) <==>
              && q <= a < b <= |t|
              && Spells(NamePrefix(f), t[q..a])
              && LitAt(t, b, "\")")
              && OnOneLine(t, a, b)
              && forall m :: a < m < b ==> !LitAt(t, m, "\")")
  {
    if MatchAt(NameField(f), t, q) == Some((a, b)) {
      FieldPrefixIff(t, q, f, a);
    }
    if && q <= a < b <= |t| && Spells(NamePrefix(f), t[q..a]) && LitAt(t, b, "\")") && OnOneLine(t, a, b)
       && forall m :: a < m < b ==> !LitAt(t, m, "\")") {
      FieldPrefixIff(t, q, f, a);
      CloseQuoteIs(t, a, b);
    }
  }

  /**
   * A number pattern matches at `q` with capture `t[a..b]` exactly when the text from `q`
   * reads as the field's name and `:` with only spaces around it, and `t[a..b]` is the
   * whole run of ASCII digits that starts there (at least one).
   */
  lemma NumberMatchIff(t: string, q: nat, f: Field, a: nat, b: nat)
    requires q <= |t|
    ensures MatchAt(NumberField(f), t, q) == Some((a, b)) <==>
              && q <= a < b <= |t|
              && Spells(NumberPrefix(f), t[q..a])
              && (forall k :: a <= k < b ==> IsDigit(t[k]))
              && (b == |t| || !IsDigit(t[b]))
  {
    if MatchAt(NumberField(f), t, q) == Some((a, b)) {
      assert IsDigit(t[a]);
      FieldPrefixIff(t, q, f, a);
    }
    if && q <= a < b <= |t| && Spells(NumberPrefix(f), t[q..a])
       && (forall k :: a <= k < b ==> IsDigit(t[k])) && (b == |t| || !IsDigit(t[b])) {
      assert IsDigit(t[a]);
      FieldPrefixIff(t, q, f, a);
      assert DigitsEnd(t, a) == b;
    }
  }

  /** Only spaces may stand between a field's name and its `:`; a tab, say, rules a match out. */
  lemma NonSpaceBeforeColon(t: string, q: nat, f: Field)
    requires q <= |t| && LitAt(t, q, f.Name())
    requires q + |f.Name()| < |t| && t[q + |f.Name()|] != ' ' && t[q + |f.Name()|] != ':'
    ensures MatchAt(NameField(f), t, q).None? && MatchAt(NumberField(f), t, q).None?
  {
    WordThenNoColon(t, q, f.Name(), NameTail.next.next);
    WordThenNoColon(t, q, f.Name(), NumberTail.next.next);
  }

  /** A word followed by a character that is neither a space nor `:` is not a word, spaces and `:`. */
  lemma WordThenNoColon(t: string, q: nat, w: string, next: Prefix)
    requires q <= |t| && LitAt(t, q, w)
    requires q + |w| < |t| && t[q + |w|] != ' ' && t[q + |w|] != ':'
    ensures MatchPrefix(t, q, Word(w, Spaces(false, Word(":", next)))).None?
  {
    var i := q + |w|;
    assert MatchPrefix(t, q, Word(w, Spaces(false, Word(":", next)))) == MatchPrefix(t, i, Spaces(false, Word(":", next)));
    assert SkipSpaces(t, i) == i;
    SpacesStep(t, i, false, Word(":", next));
    assert t[i..i + 1][0] == t[i];
    assert MatchPrefix(t, i, Word(":", next)).None?;
  }

  /** A position where `m` holds, with none before it from `from` on, is what `First` returns. */
  lemma {:induction false} FirstIs(m: nat -> bool, from: nat, q: nat, n: nat)
    requires from <= q <= n && m(q)
    requires forall q' :: from <= q' < q ==> !m(q')
    ensures First(m, from, n) == Some(q)
    decreases q - from
  {
    if from < q {
      FirstIs(m, from + 1, q, n);
    }
  }

  /** The leftmost match: a match at `q` with none before it, from `from` on, is what `Find` returns. */
  lemma FindIs(p: Pattern, t: string, from: nat, q: nat)
    requires from <= q <= |t|
    requires MatchAt(p, t, q).Some?
    requires forall q' :: from <= q' < q ==> MatchAt(p, t, q').None?
    ensures Find(p, t, from) == Some(q)
  {
    FirstIs(Matches(p, t), from, q, |t|);
  }

  // ---------------------------------------------------------------- what extraction returns

  /** The pattern a field is read with. */
  function FieldPattern(f: Field): (p: Pattern) {
    if f.IsText() then NameField(f) else NumberField(f)
  }

  /** The position of a field in the order the source reads them. */
  function Position(f: Field): (n: nat) {
    match f
    case SpecName => 0
    case ImplName => 1
    case AuthoringVersion => 2
    case SpecVersion => 3
    case ImplVersion => 4
    case TransactionVersion => 5
  }

  /** The field is found in the block and, when it is a number, fits in 32 bits. */
  predicate FieldReads(block: string, f: Field) {
    match Capture(FieldPattern(f), block)
    case None => false
    case Some(text) => f.IsText() || Value(text) <= U32Max
  }

  /** The error a field that does not read is reported with. */
  function FieldError(block: string, f: Field): (e: ExtractError) {
    if Capture(FieldPattern(f), block).None? then FieldNotFound(f) else MalformedInteger(f)
  }

  /** A name field reads as its capture, or fails with its error. */
  lemma TextStep(block: string, f: Field)
    requires f.IsText()
    ensures TextField(block, f) ==
              if FieldReads(block, f) then Success(Capture(NameField(f), block).value)
              else Failure(FieldError(block, f))
  {
  }

  /** A number field reads as the value of its digits, or fails with its error. */
  lemma NumberStep(block: string, f: Field)
    requires !f.IsText()
    ensures NumberFieldValue(block, f).Success? == FieldReads(block, f)
    ensures FieldReads(block, f) ==> NumberFieldValue(block, f).value == Value(Capture(NumberField(f), block).value)
    ensures !FieldReads(block, f) ==> NumberFieldValue(block, f).error == FieldError(block, f)
  {
  }

  /** The first field, in the order the source reads them, that does not read. */
  function FirstUnread(block: string): (r: Option<Field>) {
    if !FieldReads(block, SpecName) then Some(SpecName)
    else if !FieldReads(block, ImplName) then Some(ImplName)
    else if !FieldReads(block, AuthoringVersion) then Some(AuthoringVersion)
    else if !FieldReads(block, SpecVersion) then Some(SpecVersion)
    else if !FieldReads(block, ImplVersion) then Some(ImplVersion)
    else if !FieldReads(block, TransactionVersion) then Some(TransactionVersion)
    else None
  }

  /** The first unread field does not read, and every field before it does. */
  lemma FirstUnreadIs(block: string)
    ensures FirstUnread(block).Some? ==> !FieldReads(block, FirstUnread(block).value)
    ensures forall g: Field :: (FirstUnread(block).None? || Position(g) < Position(FirstUnread(block).value))
                               ==> FieldReads(block, g)
  {
    forall g: Field | FirstUnread(block).None? || Position(g) < Position(FirstUnread(block).value)
      ensures FieldReads(block, g)
    {
      match g
      case SpecName =>
      case ImplName =>
      case AuthoringVersion =>
      case SpecVersion =>
      case ImplVersion =>
      case TransactionVersion =>
    }
  }

  /**
   * `Extract` fails with `BlockNotFound` when there is no block; otherwise it succeeds
   * exactly when every field reads, and fails with the error of the first one that does not.
   */
  lemma ExtractStops(s: string)
    ensures LocateBlock(s).Failure? ==> Extract(s) == Failure(BlockNotFound)
    ensures LocateBlock(s).Success? ==>
              var block := LocateBlock(s).value;
              && (Extract(s).Success? <==> FirstUnread(block).None?)
              && (FirstUnread(block).Some? ==> Extract(s) == Failure(FieldError(block, FirstUnread(block).value)))
  {
    if LocateBlock(s).Success? {
      if FirstUnread(LocateBlock(s).value).None? {
        ExtractAllRead(s);
      } else {
        ExtractUnread(s);
      }
    }
  }

  /** With every field read, extraction succeeds. */
  lemma ExtractAllRead(s: string)
    requires LocateBlock(s).Success? && FirstUnread(LocateBlock(s).value).None?
    ensures Extract(s).Success?
  {
    var block := LocateBlock(s).value;
    TextStep(block, SpecName);
    TextStep(block, ImplName);
    NumberStep(block, AuthoringVersion);
    NumberStep(block, SpecVersion);
    NumberStep(block, ImplVersion);
    NumberStep(block, TransactionVersion);
  }

  /** With a field unread, extraction fails with the error of the first such field. */
  lemma ExtractUnread(s: string)
    requires LocateBlock(s).Success? && FirstUnread(LocateBlock(s).value).Some?
    ensures Extract(s) == Failure(FieldError(LocateBlock(s).value, FirstUnread(LocateBlock(s).value).value))
  {
    var block := LocateBlock(s).value;
    TextStep(block, SpecName);
    if FieldReads(block, SpecName) {
      TextStep(block, ImplName);
      if FieldReads(block, ImplName) {
        NumberStep(block, AuthoringVersion);
        if FieldReads(block, AuthoringVersion) {
          NumberStep(block, SpecVersion);
          if FieldReads(block, SpecVersion) {
            NumberStep(block, ImplVersion);
            if FieldReads(block, ImplVersion) {
              NumberStep(block, TransactionVersion);
            }
          }
        }
      }
    }
  }

  /** A successful extraction is the record of the six fields' readings in the block. */
  lemma ExtractRecord(s: string)
    requires Extract(s).Success?
    ensures LocateBlock(s).Success?
    ensures var block := LocateBlock(s).value;
            && TextField(block, SpecName).Success? && TextField(block, ImplName).Success?
            && NumberFieldValue(block, AuthoringVersion).Success? && NumberFieldValue(block, SpecVersion).Success?
            && NumberFieldValue(block, ImplVersion).Success? && NumberFieldValue(block, TransactionVersion).Success?
            && Extract(s).value == RuntimeVersion(
                 TextField(block, SpecName).value, TextField(block, ImplName).value,
                 NumberFieldValue(block, AuthoringVersion).value, NumberFieldValue(block, SpecVersion).value,
                 NumberFieldValue(block, ImplVersion).value, NumberFieldValue(block, TransactionVersion).value)
  {
  }

  /** A successful extraction carries, for each field, what its pattern captured in the block. */
  lemma ExtractValue(s: string, f: Field)
    requires Extract(s).Success?
    ensures Capture(VersionBlock, s).Some?
    ensures Capture(FieldPattern(f), Capture(VersionBlock, s).value).Some?
    ensures f.IsText() ==> Capture(FieldPattern(f), Capture(VersionBlock, s).value).value == NameOf(Extract(s).value, f)
    ensures !f.IsText() ==> Value(Capture(FieldPattern(f), Capture(VersionBlock, s).value).value) == NumberOf(Extract(s).value, f)
  {
    ExtractRecord(s);
    var block := LocateBlock(s).value;
    if f.IsText() {
      TextStep(block, f);
    } else {
      NumberStep(block, f);
    }
  }

  /**
   * Extraction succeeds exactly when the block is found and every field reads: there
   * is no partial record.
   */
  lemma ExtractSucceedsIff(s: string)
    ensures Extract(s).Success? <==>
              Capture(VersionBlock, s).Some? && forall f: Field :: FieldReads(Capture(VersionBlock, s).value, f)
  {
    ExtractStops(s);
    if Capture(VersionBlock, s).Some? {
      FirstUnreadIs(Capture(VersionBlock, s).value);
    }
  }

  /** The block is reported missing exactly when the first pattern finds nothing. */
  lemma ExtractBlockNotFound(s: string)
    ensures Extract(s) == Failure(BlockNotFound) <==> Capture(VersionBlock, s).None?
  {
    ExtractStops(s);
    if LocateBlock(s).Success? {
      var block := LocateBlock(s).value;
      if FirstUnread(block).Some? {
        assert Extract(s) == Failure(FieldError(block, FirstUnread(block).value));
      }
    }
  }

  /**
   * A field is reported missing only when the block was found, that field's pattern
   * finds nothing in it, and every field before it in the source's order was read.
   */
  lemma ExtractFieldNotFound(s: string, f: Field)
    requires Extract(s) == Failure(FieldNotFound(f))
    ensures Capture(VersionBlock, s).Some?
    ensures Capture(FieldPattern(f), Capture(VersionBlock, s).value).None?
    ensures forall g: Field :: Position(g) < Position(f) ==> FieldReads(Capture(VersionBlock, s).value, g)
  {
    ExtractStops(s);
    FirstUnreadIs(LocateBlock(s).value);
  }

  /**
   * An integer is reported malformed only for a number field whose digits were found
   * in the block but denote more than `u32::MAX`, after every earlier field was read.
   */
  lemma ExtractMalformedInteger(s: string, f: Field)
    requires Extract(s) == Failure(MalformedInteger(f))
    ensures !f.IsText()
    ensures Capture(VersionBlock, s).Some?
    ensures Capture(NumberField(f), Capture(VersionBlock, s).value).Some?
    ensures Value(Capture(NumberField(f), Capture(VersionBlock, s).value).value) > U32Max
    ensures forall g: Field :: Position(g) < Position(f) ==> FieldReads(Capture(VersionBlock, s).value, g)
  {
    ExtractStops(s);
    FirstUnreadIs(LocateBlock(s).value);
  }
}
