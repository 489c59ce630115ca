/**
 Writing a struct into a Redis hash field by field and reading it back into another one
 (common/redis.go, RedisHSetObj and RedisHGetObj), over a typed list of fields.
 */
module RedisHash {
  import opened Numbers
  import opened Options

  /** Go kinds: int and int64 are one; other kinds cannot be read back, structs are left alone. */
  datatype Kind = StringKind | IntKind | BoolKind | StructKind | OtherKind

  /** A value, or the text %v prints for one of the kinds that are not parsed. */
  datatype Value = Str(s: string) | Int(i: int) | Bool(b: bool) | Opaque(text: string, identity: nat)

  /** A field of a struct type. `zero` is the zero value of its kind. */
  datatype Field = Field(name: string, kind: Kind, pointer: bool, deletedAt: bool, zero: Value)

  /** What a field holds: a value, a pointer to one, or nil. */
  datatype Cell = Direct(v: Value) | Pointer(v: Value) | Nil

  predicate OfKind(kind: Kind, v: Value) {
    match kind
    case StringKind => v.Str?
    case IntKind => v.Int? && IsInt64(v.i)
    case BoolKind => v.Bool?
    case _ => v.Opaque?
  }

  predicate Fits(f: Field, c: Cell) {
    && OfKind(f.kind, f.zero)
    && (if f.pointer then c.Pointer? || c.Nil? else c.Direct?)
    && (c.Nil? || OfKind(f.kind, c.v))
    && (f.deletedAt ==> f.kind.StructKind? && !f.pointer)
  }

  /** A struct's fields have different names, and each cell is of its field's type. */
  ghost predicate Typed(fields: seq<Field>, cells: seq<Cell>) {
    && |cells| == |fields|
    && (forall i :: 0 <= i < |fields| ==> Fits(fields[i], cells[i]))
    && (forall i, j :: 0 <= i < j < |fields| ==> fields[i].name != fields[j].name)
  }

  // ---------------------------------------------------------------- writing

  function Print(v: Value): string {
    match v
    case Str(s) => s
    case Int(i) => FormatInt(i)
    case Bool(b) => FormatBool(b)
    case Opaque(text, _) => text
  }

  function CellText(c: Cell): string {
    if c.Nil? then "" else Print(c.v)
  }

  /** The hash of a struct's fields; DeletedAt is not stored. */
  function Hash(fields: seq<Field>, cells: seq<Cell>): map<string, string>
    requires |cells| == |fields|
  {
    if |fields| == 0 then map[]
    else
      var n := |fields| - 1;
      var before := Hash(fields[..n], cells[..n]);
      if fields[n].deletedAt then before else before[fields[n].name := CellText(cells[n])]
  }

  /** The loop of RedisHSetObj. */
  method SetObj(fields: seq<Field>, cells: seq<Cell>) returns (data: map<string, string>)
    requires Typed(fields, cells)
    ensures data == Hash(fields, cells)
  {
    data := map[];
    for i := 0 to |fields|
      invariant data == Hash(fields[..i], cells[..i])
    {
      assert fields[..i + 1][..i] == fields[..i] && cells[..i + 1][..i] == cells[..i];
      if fields[i].deletedAt {
        continue;
      }
      if cells[i].Nil? {
        data := data[fields[i].name := ""];
        continue;
      }
      if cells[i].v.Bool? {
        data := data[fields[i].name := FormatBool(cells[i].v.b)];
        continue;
      }
      data := data[fields[i].name := Print(cells[i].v)];
    }
    assert fields[..|fields|] == fields && cells[..|cells|] == cells;
  }

  // ---------------------------------------------------------------- reading

  /** A value parsed from a field's text over what was there; None is a parse error or a kind that
      cannot be read. The text of a DeletedAt field is never in a hash written by SetObj. */
  function Parse(kind: Kind, text: string, v: Value): Option<Value> {
    match kind
    case StringKind => Some(Str(text))
    case IntKind => (match ParseInt(text) case Some(i) => Some(Int(i)) case None => None)
    case BoolKind => (match ParseBool(text) case Some(b) => Some(Bool(b)) case None => None)
    case StructKind => Some(v)
    case OtherKind => None
  }

  /** What a field that the hash has becomes; a pointer keeps what it has on an empty text. */
  function ReadCell(f: Field, text: string, c: Cell): (r: Option<Cell>)
    requires Fits(f, c)
    ensures r.Some? ==> Fits(f, r.value)
  {
    if f.pointer && text == "" then Some(c)
    else
      match Parse(f.kind, text, if c.Nil? then f.zero else c.v)
      case None => None
      case Some(v) => Some(if f.pointer then Pointer(v) else Direct(v))
  }

  function Updated(f: Field, data: map<string, string>, c: Cell): (r: Option<Cell>)
    requires Fits(f, c)
    ensures r.Some? ==> Fits(f, r.value)
  {
    if f.name in data then ReadCell(f, data[f.name], c) else Some(c)
  }

  /** The struct read into. */
  class Object {
    const fields: seq<Field>
    var cells: seq<Cell>

    constructor (fields: seq<Field>, cells: seq<Cell>)
      ensures this.fields == fields && this.cells == cells
    {
      this.fields, this.cells := fields, cells;
    }

    /** RedisHGetObj. On an error the fields before the failing one have been overwritten. */
    method GetObj(data: map<string, string>) returns (ok: bool)
      requires Typed(fields, cells)
      modifies this`cells
      ensures |cells| == |fields|
      ensures ok <==> data.Keys != {} && forall i :: 0 <= i < |fields| ==> Updated(fields[i], data, old(cells)[i]).Some?
      ensures ok ==> forall i :: 0 <= i < |fields| ==> Some(cells[i]) == Updated(fields[i], data, old(cells)[i])
      ensures !ok && data.Keys == {} ==> cells == old(cells)
      ensures !ok && data.Keys != {} ==>
                exists n :: 0 <= n < |fields| && Updated(fields[n], data, old(cells)[n]).None? &&
                  (forall i :: 0 <= i < n ==> Some(cells[i]) == Updated(fields[i], data, old(cells)[i])) &&
                  forall i :: n < i < |fields| ==> cells[i] == old(cells)[i]
    {
      if |data| == 0 {
        return false;
      }
      for n := 0 to |fields|
        invariant |cells| == |fields|
        invariant forall i :: 0 <= i < n ==> Some(cells[i]) == Updated(fields[i], data, old(cells)[i])
        invariant forall i :: n <= i < |fields| ==> cells[i] == old(cells)[i]
      {
        var f := fields[n];
        if f.name in data {
          var value := data[f.name];
          if f.pointer {
            if value == "" {
              continue;
            }
            if cells[n].Nil? {
              cells := cells[n := Pointer(f.zero)];
            }
          }
          var parsed := Parse(f.kind, value, cells[n].v);
          if parsed.None? {
            return false;
          }
          cells := cells[n := if f.pointer then Pointer(parsed.value) else Direct(parsed.value)];
        }
      }
      ok := true;
    }
  }

  // ---------------------------------------------------------------- there and back

  lemma {:induction false} HashHas(fields: seq<Field>, cells: seq<Cell>, name: string)
    requires Typed(fields, cells)
    ensures name in Hash(fields, cells) <==>
              exists i :: 0 <= i < |fields| && fields[i].name == name && !fields[i].deletedAt
  {
    if |fields| > 0 {
      var n := |fields| - 1;
      HashHas(fields[..n], cells[..n], name);
      assert forall i :: 0 <= i < n ==> fields[..n][i] == fields[i];
      if name in Hash(fields, cells) && name in Hash(fields[..n], cells[..n]) {
        var i :| 0 <= i < n && fields[..n][i].name == name && !fields[..n][i].deletedAt;
        assert fields[i].name == name;
      }
    }
  }

  /** The hash holds each field's own text. */
  lemma {:induction false} HashAt(fields: seq<Field>, cells: seq<Cell>, i: nat)
    requires Typed(fields, cells) && i < |fields|
    ensures fields[i].deletedAt ==> fields[i].name !in Hash(fields, cells)
    ensures !fields[i].deletedAt ==>
              fields[i].name in Hash(fields, cells) && Hash(fields, cells)[fields[i].name] == CellText(cells[i])
  {
    var n := |fields| - 1;
    if i < n {
      HashAt(fields[..n], cells[..n], i);
      assert fields[i].name != fields[n].name;
    } else if fields[n].deletedAt {
      HashHas(fields, cells, fields[n].name);
    }
  }

  /** A field that cannot be read back: the value is of an unsupported kind and prints as something. */
  predicate Unreadable(f: Field, source: Cell) {
    f.kind.OtherKind? && !(f.pointer && CellText(source) == "")
  }

  /** A field of the target that keeps what it had: a deletion time, a struct, a nil pointer, and a
      pointer to a value that prints as nothing, such as the empty string. */
  predicate Kept(f: Field, source: Cell) {
    f.deletedAt || (f.pointer && CellText(source) == "") || (f.kind.StructKind? && !f.pointer)
  }

  /** What reading a field's own text gives. */
  lemma FieldRoundTrip(f: Field, source: Cell, target: Cell)
    requires Fits(f, source) && Fits(f, target) && !f.deletedAt
    ensures ReadCell(f, CellText(source), target) ==
            if Unreadable(f, source) then None
            else if Kept(f, source) then Some(target)
            else if f.kind.StructKind? then Some(Pointer(if target.Nil? then f.zero else target.v))
            else Some(source)
  {
    if !source.Nil? && source.v.Int? { IntRoundTrip(source.v.i); }
    if !source.Nil? && source.v.Bool? { BoolRoundTrip(source.v.b); }
  }

  /** Whether a field comes back as it was, given what the target held. */
  predicate Survives(f: Field, source: Cell, target: Cell) {
    if Kept(f, source) then source == target
    else if f.kind.StructKind? then source == (if target.Nil? then Pointer(f.zero) else target)
    else true
  }

  lemma FieldComesBack(fields: seq<Field>, source: seq<Cell>, target: seq<Cell>, i: nat)
    requires Typed(fields, source) && Typed(fields, target) && i < |fields|
    ensures var back := Updated(fields[i], Hash(fields, source), target[i]);
            && (back.None? <==> !fields[i].deletedAt && Unreadable(fields[i], source[i]))
            && (back.Some? ==> (back.value == source[i] <==> Survives(fields[i], source[i], target[i])))
  {
    HashAt(fields, source, i);
    if !fields[i].deletedAt { FieldRoundTrip(fields[i], source[i], target[i]); }
  }

  /** Reading a stored struct succeeds exactly when some field is stored and none is unreadable. */
  lemma ReadsBack(fields: seq<Field>, source: seq<Cell>, target: seq<Cell>)
    requires Typed(fields, source) && Typed(fields, target)
    ensures var data := Hash(fields, source);
            (data.Keys != {} && forall i :: 0 <= i < |fields| ==> Updated(fields[i], data, target[i]).Some?) <==>
            (exists i :: 0 <= i < |fields| && !fields[i].deletedAt) &&
            forall i :: 0 <= i < |fields| && !fields[i].deletedAt ==> !Unreadable(fields[i], source[i])
  {
    hide Updated, Unreadable, Survives, Hash;
    var data := Hash(fields, source);
    forall i | 0 <= i < |fields|
      ensures Updated(fields[i], data, target[i]).None? <==> !fields[i].deletedAt && Unreadable(fields[i], source[i])
    {
      FieldComesBack(fields, source, target, i);
    }
    if i :| 0 <= i < |fields| && !fields[i].deletedAt {
      HashHas(fields, source, fields[i].name);
    } else if name :| name in data {
      HashHas(fields, source, name);
    }
  }

  /** What was read is what was stored exactly when the target already agrees on the fields that are
      not carried over. */
  lemma RoundTrip(fields: seq<Field>, source: seq<Cell>, target: seq<Cell>, back: seq<Cell>)
    requires Typed(fields, source) && Typed(fields, target) && |back| == |fields|
    requires forall i :: 0 <= i < |fields| ==> Some(back[i]) == Updated(fields[i], Hash(fields, source), target[i])
    ensures back == source <==> forall i :: 0 <= i < |fields| ==> Survives(fields[i], source[i], target[i])
  {
    hide Updated, Survives, Hash;
    forall i | 0 <= i < |fields| ensures back[i] == source[i] <==> Survives(fields[i], source[i], target[i]) {
      FieldComesBack(fields, source, target, i);
    }
  }

  /** Into a zeroed struct every string, number and truth value comes back, behind a pointer or not,
      but for a pointer to the empty string, which comes back as nil. */
  lemma IntoZeroTarget(f: Field, source: Cell)
    requires Fits(f, source) && (f.kind.StringKind? || f.kind.IntKind? || f.kind.BoolKind?)
    ensures Survives(f, source, if f.pointer then Nil else Direct(f.zero)) <==> source != Pointer(Str(""))
  {
    hide FormatInt;
    if !source.Nil? && source.v.Int? { IntRoundTrip(source.v.i); }
    if !source.Nil? && source.v.Bool? { BoolRoundTrip(source.v.b); }
    assert ParseInt("") == None && ParseBool("") == None;
  }
}
