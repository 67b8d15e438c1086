/** The static language description that drives decoding: constructors, their
    operands and their context actions (fugue-lifter-runtime/src/constructor.rs,
    operand/mod.rs, context.rs). */
module Grammar {
  import opened Prelude
  import opened Words

  /** How an operand is decoded. */
  datatype Resolver = Plain | Filter(filter: nat) | Subtable(table: nat)

  /** How an operand's handle is computed by the second walk. */
  datatype HandleResolver = Inner | Symbol(symbol: nat) | Expression(expression: nat)

  datatype Operand = Operand(
    resolver: Resolver,
    handleResolver: HandleResolver,
    offsetBase: Option<nat>,
    offsetRela: nat,
    minimumLength: nat)

  /** Context actions: `Commit` snapshots masked bits for later, `Operator` overwrites
      masked bits of one context word with a computed value. */
  datatype ContextAction =
    | Commit(num: nat, mask: Word, action: nat)
    | Operator(num: nat, shift: nat, mask: Word, expression: nat)

  datatype Constructor = Constructor(
    id: nat,
    contextActions: seq<ContextAction>,
    operands: seq<Operand>,
    result: Option<nat>,
    delaySlotLength: nat,
    minimumLength: nat)

  /** What the generator guarantees of operand `i`: an offset base names an earlier operand of
      the same constructor, and exactly the subtable operands get their handle from their
      own constructor. */
  predicate WellFormedOperand(c: Constructor, i: nat)
    requires i < |c.operands|
  {
    && (c.operands[i].offsetBase.Some? ==> c.operands[i].offsetBase.value < i)
    && (c.operands[i].resolver.Subtable? <==> c.operands[i].handleResolver.Inner?)
  }

  predicate WellFormed(c: Constructor)
  {
    c.minimumLength < 256 && forall i :: 0 <= i < |c.operands| ==> WellFormedOperand(c, i)
  }

  type Ctor = c: Constructor | WellFormed(c)
    witness Constructor(0, [], [], None, 0, 0)

  /** One level of the path from a node to the root: which constructor, at which offset. */
  datatype Step = Step(ctor: Option<Ctor>, offset: U8)

  /** The path from a node (first) outwards to the root (last). */
  type Trail = seq<Step>

  /** One instruction's view of the language: the instruction bytes are fixed, so a table
      lookup depends on the offset and the context words, and filters and context-action
      expressions depend on the trail and the context words. */
  datatype Language = Language(
    resolve: (nat, U8, seq<Word>) -> Option<Ctor>,
    filter: (nat, Trail, seq<Word>) -> bool,
    action: (nat, Trail, seq<Word>) -> Option<Word>)

  /** A recorded commit: the action, the node it was met at and the extracted bits. */
  datatype ContextCommit = ContextCommit(action: nat, point: U8, value: Word)

  /** The masked overwrite of one context word; a word index outside the context is
      excluded by the generator and leaves the words alone here. */
  function SetContextWord(words: seq<Word>, num: nat, value: Word, mask: Word): (r: seq<Word>)
    ensures |r| == |words|
  {
    if num < |words| then words[num := Overwrite(words[num], mask, AndW(mask, value))] else words
  }

  function ExtractWord(words: seq<Word>, num: nat, mask: Word): Word
  {
    if num < |words| then AndW(words[num], mask) else 0
  }

  /** The part of the decoder state that context actions touch. */
  datatype Effects = Effects(words: seq<Word>, commits: seq<ContextCommit>)

  /** One context action at node `point` reached by `trail`. */
  function ApplyAction(lang: Language, a: ContextAction, trail: Trail, point: U8, e: Effects)
    : (r: Option<Effects>)
    ensures r.Some? ==> |r.value.words| == |e.words| && e.commits <= r.value.commits
  {
    match a
    case Commit(num, mask, action) =>
      Some(e.(commits := e.commits + [ContextCommit(action, point, ExtractWord(e.words, num, mask))]))
    case Operator(num, shift, mask, expression) =>
      match lang.action(expression, trail, e.words)
      case None => None
      case Some(v) => Some(e.(words := SetContextWord(e.words, num, Shl(v, shift), mask)))
  }

  /** Runs the context actions from index `i` on. */
  function ApplyActions(lang: Language, c: Ctor, trail: Trail, point: U8, i: nat, e: Effects)
    : (r: Option<Effects>)
    requires i <= |c.contextActions|
    ensures r.Some? ==> |r.value.words| == |e.words| && e.commits <= r.value.commits
    decreases |c.contextActions| - i
  {
    if i == |c.contextActions| then Some(e)
    else
      match ApplyAction(lang, c.contextActions[i], trail, point, e)
      case None => None
      case Some(e') => ApplyActions(lang, c, trail, point, i + 1, e')
  }
}
