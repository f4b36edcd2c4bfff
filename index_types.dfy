/**
 * Index kinds and the capability predicates of a served index
 * (IndexType_e, GetTypeName, TypeOfIndexConfig, ServedDesc_t::Is*).
 */
module IndexTypes {
  import opened Options

  /** IndexType_e, in declaration order. */
  datatype IndexType = Plain | Template | Rt | Percolate | Distr | Error

  /** g_dIndexTypeName, indexed by the kind. */
  function GetTypeName(t: IndexType): (name: string)
    ensures name != []
    ensures TypeOfIndexConfig(name) == t
  {
    match t
    case Plain => "plain"
    case Template => "template"
    case Rt => "rt"
    case Percolate => "percolate"
    case Distr => "distributed"
    case Error => "invalid"
  }

  /** The `type` setting of an index section; an absent (empty) setting is a
      plain index, and anything unknown is an error. */
  function TypeOfIndexConfig(s: string): (t: IndexType)
    ensures s == [] ==> t == Plain
  {
    if s == "distributed" then Distr
    else if s == "rt" then Rt
    else if s == "percolate" then Percolate
    else if s == "template" then Template
    else if s == [] || s == "plain" then Plain
    else Error
  }

  /** The names are distinct, so a kind is recovered from its name. */
  lemma TypeNameInjective(a: IndexType, b: IndexType)
    requires GetTypeName(a) == GetTypeName(b)
    ensures a == b
  {
    assert TypeOfIndexConfig(GetTypeName(a)) == a;
  }

  /** Every recognised setting is either empty or the name of its kind; the
      name `invalid` itself is not recognised. */
  lemma TypeOfIndexConfigRecognised(s: string)
    ensures TypeOfIndexConfig(s) != Error ==> s == [] || s == GetTypeName(TypeOfIndexConfig(s))
    ensures TypeOfIndexConfig(GetTypeName(Error)) == Error
  {
  }

  /** The fields of ServedDesc_t the predicates look at. */
  datatype ServedDesc = ServedDesc(kind: IndexType, json: bool, cluster: string)

  /** Mutable: accepts INSERT and REPLACE. */
  function IsMutable(served: Option<ServedDesc>): (r: bool)
    ensures served.None? ==> !r
    ensures r ==> served.value.kind in {Rt, Percolate}
  {
    served.Some? && (served.value.kind == Rt || served.value.kind == Percolate)
  }

  /** Cluster: takes part in replication. */
  function IsCluster(served: Option<ServedDesc>): (r: bool)
    ensures served.None? ==> !r
    ensures served.Some? && served.value.json ==> r
  {
    served.Some? && (served.value.json || served.value.cluster != [])
  }

  /** Full-text searchable. */
  function IsFT(served: Option<ServedDesc>): (r: bool)
    ensures served.None? ==> !r
    ensures r ==> served.value.kind in {Plain, Rt, Distr}
  {
    served.Some? && (served.value.kind == Plain || served.value.kind == Rt || served.value.kind == Distr)
  }

  /** Selectable: supports at least a full scan. */
  function IsSelectable(served: Option<ServedDesc>): (r: bool)
    ensures served.None? ==> !r
    ensures IsFT(served) ==> r
  {
    served.Some? && (IsFT(served) || served.value.kind == Percolate)
  }

  /** What each kind can do: exactly plain, RT and distributed indexes are
      full-text; every kind but a template and an error is selectable; a mutable index is selectable, and the one mutable kind
      that is not full-text is a percolate index. */
  lemma Capabilities(served: Option<ServedDesc>)
    requires served.Some?
    ensures IsFT(served) <==> served.value.kind in {Plain, Rt, Distr}
    ensures IsSelectable(served) <==> served.value.kind !in {Template, Error}
    ensures IsMutable(served) ==> IsSelectable(served)
    ensures IsMutable(served) && !IsFT(served) <==> served.value.kind == Percolate
    ensures IsMutable(served) && IsFT(served) <==> served.value.kind == Rt
    ensures IsCluster(served) <==> served.value.json || served.value.cluster != []
  {
  }
}
