/** The generated message types of the scene and image-annotation nests, as rows of field types in struct order. */
module Schemas {
  import opened Wrappers
  import opened Messages

  datatype Kind =
    | SceneUpdate | SceneEntityDeletion | SceneEntity | KeyValuePair
    | ArrowPrimitive | CubePrimitive | SpherePrimitive | CylinderPrimitive
    | LinePrimitive | TriangleListPrimitive | TextPrimitive | ModelPrimitive
    | Pose | Vector3 | Quaternion | Color | Point2 | Point3
    | ImageAnnotations | CircleAnnotation | PointsAnnotation | TextAnnotation

  datatype FieldType = Num | EnumOf | TimeOf | Str(name: string) | Blob | SubOf(kind: Kind) | ListOf(kind: Kind)

  function Schema(k: Kind): seq<FieldType> {
    match k
    case SceneUpdate => [ListOf(SceneEntityDeletion), ListOf(SceneEntity)]
    case SceneEntityDeletion => [TimeOf, EnumOf, Str("id")]
    case SceneEntity => [
      TimeOf, Str("frame_id"), Str("id"), TimeOf, Num, ListOf(KeyValuePair), ListOf(ArrowPrimitive),
      ListOf(CubePrimitive), ListOf(SpherePrimitive), ListOf(CylinderPrimitive), ListOf(LinePrimitive),
      ListOf(TriangleListPrimitive), ListOf(TextPrimitive), ListOf(ModelPrimitive)
    ]
    case KeyValuePair => [Str("key"), Str("value")]
    case ArrowPrimitive => [SubOf(Pose), Num, Num, Num, Num, SubOf(Color)]
    case CubePrimitive => [SubOf(Pose), SubOf(Vector3), SubOf(Color)]
    case SpherePrimitive => [SubOf(Pose), SubOf(Vector3), SubOf(Color)]
    case CylinderPrimitive => [SubOf(Pose), SubOf(Vector3), Num, Num, SubOf(Color)]
    case LinePrimitive => [EnumOf, SubOf(Pose), Num, Num, ListOf(Point3), SubOf(Color), ListOf(Color), Blob]
    case TriangleListPrimitive => [SubOf(Pose), ListOf(Point3), SubOf(Color), ListOf(Color), Blob]
    case TextPrimitive => [SubOf(Pose), Num, Num, Num, SubOf(Color), Str("text")]
    case ModelPrimitive => [SubOf(Pose), SubOf(Vector3), SubOf(Color), Num, Str("url"), Str("media_type"), Blob]
    case Pose => [SubOf(Vector3), SubOf(Quaternion)]
    case Vector3 => [Num, Num, Num]
    case Quaternion => [Num, Num, Num, Num]
    case Color => [Num, Num, Num, Num]
    case Point2 => [Num, Num]
    case Point3 => [Num, Num, Num]
    case ImageAnnotations => [ListOf(CircleAnnotation), ListOf(PointsAnnotation), ListOf(TextAnnotation)]
    case CircleAnnotation => [TimeOf, SubOf(Point2), Num, Num, SubOf(Color), SubOf(Color)]
    case PointsAnnotation => [TimeOf, EnumOf, ListOf(Point2), SubOf(Color), ListOf(Color), SubOf(Color), Num]
    case TextAnnotation => [TimeOf, SubOf(Point2), Str("text"), Num, SubOf(Color), SubOf(Color)]
  }

  /** `m` is a C struct of type `k`. */
  predicate HasKind(m: CMsg, k: Kind) {
    var s := Schema(k);
    |m.fields| == |s| && forall i | 0 <= i < |s| :: FieldHasType(m.fields[i], s[i])
  }

  predicate FieldHasType(f: CField, t: FieldType) {
    match f
    case Plain(Number(_)) => t == Num
    case Plain(Enum(_)) => t == EnumOf
    case Plain(Time(_)) => t == TimeOf
    case Text(name, _, _) => t == Str(name)
    case Raw(_, _) => t == Blob
    case Sub(msg) => t.SubOf? && (msg.Some? ==> HasKind(msg.value, t.kind))
    case Many(items, count, _) => t.ListOf? && (count > 0 && items.At? ==> forall m <- items.elems :: HasKind(m, t.kind))
  }

  /** `t` is a native message of type `k`. */
  predicate TreeHasKind(t: Tree, k: Kind) {
    var s := Schema(k);
    |t.fields| == |s| && forall i | 0 <= i < |s| :: TreeFieldHasType(t.fields[i], s[i])
  }

  predicate TreeFieldHasType(f: TField, t: FieldType) {
    match f
    case TPlain(Number(_)) => t == Num
    case TPlain(Enum(_)) => t == EnumOf
    case TPlain(Time(_)) => t == TimeOf
    case TText(_) => t.Str?
    case TRaw(_) => t == Blob
    case TSub(msg) => t.SubOf? && (msg.Some? ==> TreeHasKind(msg.value, t.kind))
    case TList(items) => t.ListOf? && forall m <- items :: TreeHasKind(m, t.kind)
  }

  /** The string fields inside a message of type `k`. */
  function Names(k: Kind): set<string> {
    match k
    case SceneUpdate | SceneEntity => {"frame_id", "id", "key", "value", "text", "url", "media_type"}
    case SceneEntityDeletion => {"id"}
    case KeyValuePair => {"key", "value"}
    case TextPrimitive | TextAnnotation | ImageAnnotations => {"text"}
    case ModelPrimitive => {"url", "media_type"}
    case _ => {}
  }

  ghost predicate Blames(e: Error, k: Kind) {
    e.InvalidText? && e.field in Names(k)
  }

  /** Whatever a field of type `t` can be blamed for, a message of type `k` can be blamed for. */
  ghost predicate Inherits(t: FieldType, k: Kind) {
    match t
    case Str(name) => name in Names(k)
    case SubOf(inner) => Names(inner) <= Names(k)
    case ListOf(inner) => Names(inner) <= Names(k)
    case _ => true
  }

  /** The string fields of a type are its own and those of the types that it contains, and no others. */
  lemma NamesAreExact(k: Kind, name: string)
    ensures name in Names(k) <==> exists i :: 0 <= i < |Schema(k)| && Contains(Schema(k)[i], name)
  {
    var i := match k
      case SceneUpdate => 1
      case SceneEntity =>
        if name == "frame_id" then 1 else if name in Names(KeyValuePair) then 5
        else if name == "text" then 12 else if name in Names(ModelPrimitive) then 13 else 2
      case KeyValuePair => if name == "key" then 0 else 1
      case TextPrimitive => 5
      case ModelPrimitive => if name == "url" then 4 else 5
      case SceneEntityDeletion | ImageAnnotations | TextAnnotation => 2
      case _ => 0;
    assert name in Names(k) ==> Contains(Schema(k)[i], name);
  }

  /** A field of type `t` has the string `name` in it. */
  ghost predicate Contains(t: FieldType, name: string) {
    match t
    case Str(own) => own == name
    case SubOf(inner) => name in Names(inner)
    case ListOf(inner) => name in Names(inner)
    case _ => false
  }

  lemma NamesAreInherited(k: Kind)
    ensures forall i | 0 <= i < |Schema(k)| :: Inherits(Schema(k)[i], k)
  {
  }

  /** A value of type `k` converts to a value of type `k`, or fails on one of the strings that the type contains. */
  lemma {:induction false} ConversionKeepsKind(m: CMsg, k: Kind)
    requires Safe(m) && HasKind(m, k)
    ensures match Convert(m)
            case Ok(t) => TreeHasKind(t, k)
            case Err(e) => Blames(e, k)
    decreases m, 0
  {
    NamesAreInherited(k);
    FieldsKeepTypes(m.fields, Schema(k), k);
  }

  lemma {:induction false} FieldsKeepTypes(fs: seq<CField>, types: seq<FieldType>, k: Kind)
    requires |fs| == |types| && forall f <- fs :: SafeField(f)
    requires forall i | 0 <= i < |fs| :: FieldHasType(fs[i], types[i]) && Inherits(types[i], k)
    ensures match ConvertFields(fs)
            case Ok(ts) => forall i | 0 <= i < |ts| :: TreeFieldHasType(ts[i], types[i])
            case Err(e) => Blames(e, k)
    decreases fs, 1
  {
    if fs == [] {
    } else {
      FieldKeepsType(fs[0], types[0], k);
      FieldsKeepTypes(fs[1..], types[1..], k);
    }
  }

  lemma {:induction false} FieldKeepsType(f: CField, type': FieldType, k: Kind)
    requires SafeField(f) && FieldHasType(f, type') && Inherits(type', k)
    ensures match ConvertField(f)
            case Ok(t) => TreeFieldHasType(t, type')
            case Err(e) => Blames(e, k)
    decreases f, 0
  {
    match f
    case Sub(Some(m)) => ConversionKeepsKind(m, type'.kind);
    case Many(items, count, _) => if count > 0 { ListKeepsKind(items.elems, type'.kind); }
    case _ =>
  }

  lemma {:induction false} ListKeepsKind(ms: seq<CMsg>, k: Kind)
    requires forall m <- ms :: Safe(m) && HasKind(m, k)
    ensures match ConvertList(ms)
            case Ok(ts) => forall t <- ts :: TreeHasKind(t, k)
            case Err(e) => Blames(e, k)
    decreases ms, 1
  {
    if ms == [] {
    } else {
      ConversionKeepsKind(ms[0], k);
      ListKeepsKind(ms[1..], k);
    }
  }

  /** Messages of a type without strings always convert: a line with any points and colours, for one. */
  lemma StringlessMessagesConvert(m: CMsg, k: Kind)
    requires Safe(m) && HasKind(m, k) && Names(k) == {}
    ensures Convert(m).Ok? && TreeHasKind(Convert(m).value, k)
  {
    ConversionKeepsKind(m, k);
  }
}
