/**
 * The data bk.c works on: the C types it recognises, the records it builds for each
 * `typedef struct`, the schema registry, and the schema bitmask `derived_schemas`.
 */
module Types {

  import opened Util

  /**
   * The primitive field types. `CNone` is the zero value the C enum never names (its first
   * member `CINT` is 1): a field the scanner could not type keeps it.
   */
  datatype CPrimitive = CNone | CINT | CUINT | CLONG | CULONG | CCHAR | CFLOAT | CBOOL | CSTRING

  /** A field's type: a primitive, or an external type known by its name. */
  datatype CType = Primitive(prim: CPrimitive) | External(name: string)

  /** A struct member: its name, the text of an optional `tag("...")`, and its type. */
  datatype Field = Field(name: string, tag: Option<string>, ty: CType)

  /** A recognised `typedef struct`: its name, fields in source order, and the schema bits set. */
  datatype CCompound = CCompound(name: string, fields: seq<Field>, derived: set<nat>)

  /** The text a generator appends and, for the declaration generators, the count it returns. */
  type DeclGen = (CCompound, string) -> (string, nat)
  type ParseDeclGen = CCompound -> (string, nat)
  type DumpImplGen = (CCompound, string, string) -> string
  type ParseImplGen = CCompound -> string

  /**
   * A schema compiled into the program. Each generator slot may be NULL. The generators are
   * outside this model: any function may stand in for them.
   */
  datatype StaticSchema = StaticSchema(
    name: string,
    deriveAttr: string,
    prelude: Option<string>,
    dumpDecl: Option<DeclGen>,
    parseDecl: Option<ParseDeclGen>,
    dumpImpl: Option<DumpImplGen>,
    parseImpl: Option<ParseImplGen>)

  /** A schema loaded from a template file: the template text, its attribute and its name. */
  datatype DynamicSchema = DynamicSchema(source: string, deriveAttr: string, name: string)

  /** All loaded schemas, static ones first, in registry order. */
  datatype Registry = Registry(statics: seq<StaticSchema>, dynamics: seq<DynamicSchema>)

  /**
   * `derived_schemas` is a C `int` and bit `i` is `1 << i`, which is defined for i < 31 only:
   * the registry must not hold more than 31 schemas.
   */
  predicate Fits(reg: Registry)
  {
    |reg.statics| + |reg.dynamics| <= 31
  }

  /** `derived_schemas |= UINT_MAX`: all 32 bits of the mask. */
  const AllBits: set<nat> := set i: nat | i < 32

  datatype SchemaKind = Static | Dynamic

  /** The `index`-th schema of the given kind is in the registry. */
  predicate InRegistry(reg: Registry, kind: SchemaKind, index: nat)
  {
    match kind
    case Static => index < |reg.statics|
    case Dynamic => index < |reg.dynamics|
  }

  /**
   * get_schema_derive: the mask bit of the `index`-th schema of the given kind. The static
   * schemas take the low bits and the dynamic ones the bits right above them.
   */
  function SchemaBit(reg: Registry, kind: SchemaKind, index: nat): (b: nat)
    ensures InRegistry(reg, kind, index) ==> (b < |reg.statics| <==> kind == Static)
    ensures InRegistry(reg, kind, index) ==> b < |reg.statics| + |reg.dynamics|
    ensures Fits(reg) && InRegistry(reg, kind, index) ==> b < 31 && b in AllBits
  {
    match kind
    case Static => index
    case Dynamic => index + |reg.statics|
  }

  /** Distinct schemas of a registry that fits own distinct bits, all inside the 32-bit mask. */
  lemma SchemaBitsDistinct(reg: Registry, k1: SchemaKind, i1: nat, k2: SchemaKind, i2: nat)
    requires Fits(reg)
    requires InRegistry(reg, k1, i1) && InRegistry(reg, k2, i2)
    ensures SchemaBit(reg, k1, i1) == SchemaBit(reg, k2, i2) <==> k1 == k2 && i1 == i2
  {
  }

  /** The tag a template's `if` compares with for a field's kind (`CINT` … `CSTRING`, `CEXTERNAL`). */
  function KindTag(t: CType): (r: Option<string>)
    ensures t.External? ==> r == Some("CEXTERNAL")
    ensures r.None? <==> t == Primitive(CNone)
  {
    match t
    case External(_) => Some("CEXTERNAL")
    case Primitive(p) =>
      match p
      case CNone => None
      case CINT => Some("CINT")
      case CUINT => Some("CUINT")
      case CLONG => Some("CLONG")
      case CULONG => Some("CULONG")
      case CCHAR => Some("CCHAR")
      case CFLOAT => Some("CFLOAT")
      case CBOOL => Some("CBOOL")
      case CSTRING => Some("CSTRING")
  }
}
