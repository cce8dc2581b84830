/** The grammar language, the values expressions compute with, and the entries of the
    document builder. Floats, external parsers and path navigation are not modelled. */
module Syntax {
  datatype Option<+T> = None | Some(value: T)

  type byte = b: int | 0 <= b < 256
  type Bytes = seq<byte>
  type Name = string
  type Label = nat

  // ── Primitive descriptors (KontNode.h) ────────────────────────────────

  type LebWidth = n: nat | 1 <= n <= 64 witness 32

  datatype PrimEndian = LittleE | BigE | NativeE
  datatype PrimInfo =
    | BoolP
    | IntP(width: nat, signed: bool, endian: PrimEndian)  // width in bytes
    | UlebP(bits: LebWidth)  // 32 or 64 in the language
    | SlebP(bits: LebWidth)

  predicate FixedWidth(w: nat) { w == 1 || w == 2 || w == 4 || w == 8 }

  // ── Values and capture carriers ───────────────────────────────────────

  datatype CapType = TBool | TInt(width: nat, signed: bool, le: bool) | TBytes | TString | TComputed

  /** What a producer knew about a value beyond its span: a varint's encoding, or a
      bitfield member's place in its run. */
  datatype Note = Plain | Varint(signed: bool) | Bits(lo: int, hi: int, isSigned: bool)

  datatype Carrier = Carrier(start: nat, end: nat, ty: CapType, val: Value, note: Note)
  datatype Value = Null | IntV(i: int) | BoolV(b: bool) | StrV(s: string) | CapV(c: Carrier)

  /** The scalar a value is stored as in the document (lower_computed). */
  function Lower(v: Value): Value {
    match v
    case IntV(_) | BoolV(_) | StrV(_) => v
    case Null | CapV(_) => IntV(0)
  }

  // ── Environments ──────────────────────────────────────────────────────

  datatype Binding = Binding(name: Name, value: Value)
  type Env = seq<Binding>  // newest binding first

  function Lookup(env: Env, n: Name): Option<Value> {
    if env == [] then None
    else if env[0].name == n then Some(env[0].value)
    else Lookup(env[1..], n)
  }

  // ── The document builder as an append-only log ────────────────────────

  datatype Event =
    | OpenStruct(name: Name, pos: nat)
    | OpenVariant(name: Name, pos: nat, tag: nat)
    | CloseStruct(pos: nat)
    | OpenArray(name: Name, pos: nat)
    | CloseArray(pos: nat)
    | FieldAt(name: Name, carrier: Carrier, treeVal: Value)
    | PendingTag(tag: nat)
    | PendingCount(name: Name)
    | DeterminesRest(name: Name)
    | BitsRun(msbFirst: bool)

  type Log = seq<Event>

  /** Start offset of the innermost open scope, or 0; `closed` counts scopes already
      seen closed while scanning backwards. */
  function ScopeStart(log: Log, closed: nat): nat {
    if log == [] then 0 else
    var rest := log[..|log| - 1];
    match log[|log| - 1]
    case OpenStruct(_, p) => if closed == 0 then p else ScopeStart(rest, closed - 1)
    case OpenVariant(_, p, _) => if closed == 0 then p else ScopeStart(rest, closed - 1)
    case OpenArray(_, p) => if closed == 0 then p else ScopeStart(rest, closed - 1)
    case CloseStruct(_) => ScopeStart(rest, closed + 1)
    case CloseArray(_) => ScopeStart(rest, closed + 1)
    case _ => ScopeStart(rest, closed)
  }

  // ── Expressions ───────────────────────────────────────────────────────

  datatype BinOp = Add | Sub | Mul | Div | Mod | BitAnd | BitOr | BitXor | Shl | Shr
                 | Eq | Ne | Lt | Le | Gt | Ge
  datatype UnOp = Neg | BitNot | Not
  datatype Builtin = AtPos | AtStart | AtEnd | AtRemaining | AtIndex | AtBuffer

  datatype Expr =
    | IntLit(n: int)
    | BoolLit(b: bool)
    | StrLit(s: string)
    | EndianLit(little: bool)
    | Eoi
    | Context(which: Builtin)
    | Ref(name: Name)
    | Bin(op: BinOp, l: Expr, r: Expr)
    | AndE(l: Expr, r: Expr)
    | OrE(l: Expr, r: Expr)
    | Un(uop: UnOp, e: Expr)
    | Ternary(cond: Expr, thn: Expr, els: Expr)
    | Call(func: Name, args: seq<Expr>)

  // ── Types ─────────────────────────────────────────────────────────────

  datatype Interval = StartEnd(start: Expr, end: Expr) | Length(len: Expr)

  datatype Field = Field(name: Name, body: Type, interval: Option<Interval>, rest: bool)
  datatype Arm = Arm(name: Name, body: Type)
  datatype CaseValue = IntCase(n: int) | RangeCase(lo: int, hi: int) | StrCase(s: string)
  datatype Case = Case(value: CaseValue, target: Type)
  datatype Default = NoDefault | Reject | DefaultTo(target: Type)
  datatype Entry = Entry(name: Name, width: nat, signed: bool, where: Option<Expr>)
  datatype ArrayMode = FixedCount | UntilEof | CountTerm | UntilTerm

  datatype Type =
    | Prim(prim: PrimInfo, where: Option<Expr>)
    | ByteRun(len: Option<Expr>, isString: bool, where: Option<Expr>)
    | Struct(fields: seq<Field>, where: Option<Expr>)
    | RuleRef(rule: Name)
    | Compute(e: Expr)
    | EndianSwitch(e: Expr)
    | Bitfield(container: PrimInfo, entries: seq<Entry>)
    | Optional(elem: Type, pred: Option<Expr>)
    | Switch(disc: Expr, cases: seq<Case>, dflt: Default)
    | Choice(arms: seq<Arm>)
    | Array(elem: Type, mode: ArrayMode, bound: Expr, sep: Option<Type>,
            elemInterval: Option<Interval>, resync: bool, where: Option<Expr>)

  datatype Rule = Rule(name: Name, body: Type)
  type Grammar = seq<Rule>

  /** The rule a name denotes; a later rule of the same name overwrites an earlier one. */
  function RuleIndex(g: Grammar, n: Name): Option<nat> {
    if g == [] then None
    else if g[|g| - 1].name == n then Some(|g| - 1)
    else RuleIndex(g[..|g| - 1], n)
  }

  lemma {:induction false} RuleIndexBound(g: Grammar, n: Name)
    ensures RuleIndex(g, n).Some? ==> RuleIndex(g, n).value < |g| && g[RuleIndex(g, n).value].name == n
                                      && forall i :: RuleIndex(g, n).value < i < |g| ==> g[i].name != n
    ensures RuleIndex(g, n).None? ==> forall i :: 0 <= i < |g| ==> g[i].name != n
  {
    if g != [] && g[|g| - 1].name != n {
      RuleIndexBound(g[..|g| - 1], n);
      forall i | 0 <= i < |g| && (RuleIndex(g, n).None? || i > RuleIndex(g, n).value) ensures g[i].name != n {
        if i < |g| - 1 { assert g[..|g| - 1][i] == g[i]; }
      }
    }
  }
}
