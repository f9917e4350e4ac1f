/**
 * AuditInterceptor: before MyBatis executes an INSERT or UPDATE, the audit
 * columns of the entity parameter (or of each entity inside a map
 * parameter) are stamped with the current time and user id. Reflection is
 * modelled by the class chain of an object: the fields each class declares,
 * from the object's own class up to the root, with their types.
 */
module Audit {
  import opened Base

  /** The declared type of a field, as far as an assignment of an audit value cares. */
  datatype FieldType = DateField | StringField | OtherField

  /** The fields one class declares. */
  type Declared = map<string, FieldType>

  /** An audit value: a `Date` (milliseconds) or a possibly null user id. */
  datatype Value = DateValue(millis: int) | UserValue(user: Option<string>)

  /**
   * `Field.set` succeeds only for a value the field's declared type is
   * assignable from; null fits any reference field. `OtherField` stands for
   * a declared type that is assignable from neither `Date` nor `String`; a
   * field declared `Object`, `Serializable`, `Cloneable` or `Comparable` is
   * not modelled.
   */
  predicate Accepts(t: FieldType, v: Value)
  {
    match v
    case DateValue(_) => t == DateField
    case UserValue(u) => t == StringField || u.None?
  }

  const CreateTime := "createTime"
  const CreateBy := "createBy"
  const UpdateTime := "updateTime"
  const UpdateBy := "updateBy"

  // ---------------------------------------------------------------- field lookup

  /** `hasField(clazz, name)`: declared by the class, or else by its superclass chain. */
  function HasField(chain: seq<Declared>, name: string): bool
  {
    if chain == [] then false
    else if name in chain[0] then true
    else HasField(chain[1..], name)
  }

  /** `getDeclaredField(clazz, name)`: the type of the nearest declaration, or null. */
  function FieldOf(chain: seq<Declared>, name: string): Option<FieldType>
  {
    if chain == [] then None
    else if name in chain[0] then Some(chain[0][name])
    else FieldOf(chain[1..], name)
  }

  /** Both lookups agree with "some class of the chain declares it", and the one found is the nearest. */
  lemma {:induction false} LookupSpec(chain: seq<Declared>, name: string)
    ensures HasField(chain, name) <==> exists i :: 0 <= i < |chain| && name in chain[i]
    ensures FieldOf(chain, name).Some? <==> HasField(chain, name)
    ensures FieldOf(chain, name).Some? ==>
      exists i :: 0 <= i < |chain| && name in chain[i] && FieldOf(chain, name) == Some(chain[i][name])
        && forall j :: 0 <= j < i ==> name !in chain[j]
  {
    if chain != [] && name !in chain[0] {
      LookupSpec(chain[1..], name);
      if HasField(chain[1..], name) {
        var i :| 0 <= i < |chain[1..]| && name in chain[1..][i] && FieldOf(chain[1..], name) == Some(chain[1..][i][name])
          && forall j :: 0 <= j < i ==> name !in chain[1..][j];
        assert name in chain[i + 1];
        assert forall j :: 0 <= j < i + 1 ==> name !in chain[j] by {
          forall j | 0 <= j < i + 1 ensures name !in chain[j] {
            if j > 0 { assert chain[j] == chain[1..][j - 1]; }
          }
        }
      }
      assert (exists i :: 0 <= i < |chain| && name in chain[i]) ==> exists i :: 0 <= i < |chain[1..]| && name in chain[1..][i] by {
        if i :| 0 <= i < |chain| && name in chain[i] {
          assert i > 0 && name in chain[1..][i - 1];
        }
      }
    }
  }

  /** `isEntityObject`: the chain declares all four audit fields somewhere. */
  predicate IsEntityObject(chain: seq<Declared>)
  {
    HasField(chain, CreateTime) && HasField(chain, CreateBy) && HasField(chain, UpdateTime) && HasField(chain, UpdateBy)
  }

  // ---------------------------------------------------------------- stamping

  /** `setFieldValue`: the value lands in the field when it is declared somewhere and the type fits; any failure is ignored. */
  function Assign(fields: map<string, Value>, chain: seq<Declared>, name: string, v: Value): map<string, Value>
  {
    var t := FieldOf(chain, name);
    if t.Some? && Accepts(t.value, v) then fields[name := v] else fields
  }

  /** `setAuditFields`: on insert the create and update pair, on update only the update pair. */
  function Stamped(fields: map<string, Value>, chain: seq<Declared>, isInsert: bool, user: Option<string>, now: int): map<string, Value>
  {
    if isInsert then
      Assign(Assign(Assign(Assign(fields, chain, CreateTime, DateValue(now)), chain, CreateBy, UserValue(user)),
                    chain, UpdateTime, DateValue(now)), chain, UpdateBy, UserValue(user))
    else
      Assign(Assign(fields, chain, UpdateTime, DateValue(now)), chain, UpdateBy, UserValue(user))
  }

  /** A chain that declares the four audit fields with their natural types (`Date` times, `String` users). */
  predicate WellTyped(chain: seq<Declared>)
  {
    FieldOf(chain, CreateTime) == Some(DateField) && FieldOf(chain, UpdateTime) == Some(DateField)
    && FieldOf(chain, CreateBy) == Some(StringField) && FieldOf(chain, UpdateBy) == Some(StringField)
  }

  /**
   * An insert stamps both times with the same `now` and both users with the
   * same id; no other field changes.
   */
  lemma InsertStampsAll(fields: map<string, Value>, chain: seq<Declared>, user: Option<string>, now: int)
    requires WellTyped(chain)
    ensures var f := Stamped(fields, chain, true, user, now);
      && f[CreateTime] == DateValue(now) && f[UpdateTime] == DateValue(now)
      && f[CreateBy] == UserValue(user) && f[UpdateBy] == UserValue(user)
      && forall n :: n != CreateTime && n != CreateBy && n != UpdateTime && n != UpdateBy ==>
           (n in f <==> n in fields) && (n in fields ==> f[n] == fields[n])
  {
  }

  /**
   * An update stamps the update pair only; the create fields and every
   * other field keep their values, present or not.
   */
  lemma UpdateKeepsCreate(fields: map<string, Value>, chain: seq<Declared>, user: Option<string>, now: int)
    requires WellTyped(chain)
    ensures var f := Stamped(fields, chain, false, user, now);
      && f[UpdateTime] == DateValue(now) && f[UpdateBy] == UserValue(user)
      && forall n :: n != UpdateTime && n != UpdateBy ==> (n in f <==> n in fields) && (n in fields ==> f[n] == fields[n])
  {
  }

  /** A field that is mistyped is silently left alone: a `Date` never lands in a field whose type is not assignable from `Date`. */
  lemma MistypedFieldUntouched(fields: map<string, Value>, chain: seq<Declared>, isInsert: bool, user: Option<string>, now: int)
    requires FieldOf(chain, UpdateTime).Some? && FieldOf(chain, UpdateTime) != Some(DateField)
    ensures var f := Stamped(fields, chain, isInsert, user, now);
      (UpdateTime in f <==> UpdateTime in fields) && (UpdateTime in fields ==> f[UpdateTime] == fields[UpdateTime])
  {
  }

  /** Stamping twice with the same time and user is stamping once. */
  lemma StampIdempotent(fields: map<string, Value>, chain: seq<Declared>, isInsert: bool, user: Option<string>, now: int)
    ensures Stamped(Stamped(fields, chain, isInsert, user, now), chain, isInsert, user, now) == Stamped(fields, chain, isInsert, user, now)
  {
    var once := Stamped(fields, chain, isInsert, user, now);
    var twice := Stamped(once, chain, isInsert, user, now);
    assert forall n :: n in twice <==> n in once;
    assert forall n :: n in twice ==> twice[n] == once[n];
  }

  // ---------------------------------------------------------------- objects

  /** A Java object: its class chain and the current values of its fields (an absent name reads as null). */
  class Entity {
    const chain: seq<Declared>
    var fields: map<string, Value>

    constructor (chain: seq<Declared>, fields: map<string, Value>)
      ensures this.chain == chain && this.fields == fields
    {
      this.chain := chain;
      this.fields := fields;
    }
  }

  /** `setFieldValue(obj, clazz, name, value)`. */
  method SetFieldValue(e: Entity, name: string, v: Value)
    modifies e
    ensures e.fields == Assign(old(e.fields), e.chain, name, v)
  {
    var t := FieldOf(e.chain, name);
    if t.Some? && Accepts(t.value, v) {
      e.fields := e.fields[name := v];
    }
  }

  /** `setAuditFields(entity, isInsert, userId, now)`. */
  method SetAuditFields(e: Entity, isInsert: bool, user: Option<string>, now: int)
    modifies e
    ensures e.fields == Stamped(old(e.fields), e.chain, isInsert, user, now)
  {
    if isInsert {
      SetFieldValue(e, CreateTime, DateValue(now));
      SetFieldValue(e, CreateBy, UserValue(user));
      SetFieldValue(e, UpdateTime, DateValue(now));
      SetFieldValue(e, UpdateBy, UserValue(user));
    } else {
      SetFieldValue(e, UpdateTime, DateValue(now));
      SetFieldValue(e, UpdateBy, UserValue(user));
    }
  }

  /** The statement parameter: null, a map (its values, null ones included), or any other object. */
  datatype Parameter = Null | MapParam(values: seq<Option<Entity>>) | Single(obj: Entity)

  /** The objects a parameter reaches: the object itself, or the non-null values of the map. */
  function Targets(p: Parameter): set<Entity>
  {
    match p
    case Null => {}
    case Single(e) => {e}
    case MapParam(vs) => set i | 0 <= i < |vs| && vs[i].Some? :: vs[i].value
  }

  /** The objects among the first `n` values of a map. */
  function SeenUpTo(vs: seq<Option<Entity>>, n: int): set<Entity>
    requires 0 <= n <= |vs|
  {
    set i | 0 <= i < n && vs[i].Some? :: vs[i].value
  }

  datatype Command = Insert | Update | Select | Delete

  /**
   * `processEntityFields(parameter, isInsert, userId, now)`: a map has each
   * non-null value that is an entity stamped (the map itself is not); any
   * other object is stamped when it is an entity.
   */
  method ProcessEntityFields(p: Parameter, isInsert: bool, user: Option<string>, now: int)
    modifies Targets(p)
    ensures forall e :: e in Targets(p) ==>
      e.fields == (if IsEntityObject(e.chain) then Stamped(old(e.fields), e.chain, isInsert, user, now) else old(e.fields))
  {
    match p {
      case Null =>
      case Single(e) =>
        if IsEntityObject(e.chain) {
          SetAuditFields(e, isInsert, user, now);
        }
      case MapParam(vs) =>
        for i := 0 to |vs|
          invariant forall e :: e in Targets(p) ==>
            e.fields == (if e in SeenUpTo(vs, i) && IsEntityObject(e.chain) then Stamped(old(e.fields), e.chain, isInsert, user, now) else old(e.fields))
        {
          if vs[i].Some? && IsEntityObject(vs[i].value.chain) {
            var e := vs[i].value;
            SetAuditFields(e, isInsert, user, now);
            if e in SeenUpTo(vs, i) {
              StampIdempotent(old(e.fields), e.chain, isInsert, user, now);
            }
          }
          assert forall e :: e in SeenUpTo(vs, i + 1) <==> e in SeenUpTo(vs, i) || (vs[i].Some? && e == vs[i].value);
        }
    }
  }

  /**
   * `intercept(invocation)`: INSERT stamps with `isInsert`, UPDATE without,
   * any other command and a null parameter leave every object alone; the
   * invocation always proceeds.
   */
  method Intercept(command: Command, p: Parameter, user: Option<string>, now: int) returns (proceeded: bool)
    modifies Targets(p)
    ensures proceeded
    ensures command != Insert && command != Update ==> forall e :: e in Targets(p) ==> e.fields == old(e.fields)
    ensures command == Insert || command == Update ==> forall e :: e in Targets(p) ==>
      e.fields == (if IsEntityObject(e.chain) then Stamped(old(e.fields), e.chain, command == Insert, user, now) else old(e.fields))
  {
    if command == Insert {
      ProcessEntityFields(p, true, user, now);
    }
    if command == Update {
      ProcessEntityFields(p, false, user, now);
    }
    return true;
  }
}
