/**
 * The development-mode assignment auditor: each wrapper performs one assignment
 * operator on `object[property]`, reads the property back and reports a stale
 * value when the assignment expression's value and the read-back differ.
 */
module Assign {
  import opened Warnings

  /** JavaScript values, as far as the auditor distinguishes them (`!==` is `!=`). */
  datatype Value = Undefined | Null | Bool(b: bool) | Num(x: real) | Str(s: string) | Obj(id: nat)

  /** ECMAScript ToBoolean. */
  predicate Truthy(v: Value) {
    match v
    case Undefined => false
    case Null => false
    case Bool(b) => b
    case Num(x) => x != 0.0
    case Str(s) => s != ""
    case Obj(_) => true
  }

  /** `null` or `undefined`, the values `??` replaces. */
  predicate IsNullish(v: Value) {
    v.Undefined? || v.Null?
  }

  /** `a && b` on evaluated operands. */
  function LogicalAnd(a: Value, b: Value): Value {
    if Truthy(a) then b else a
  }

  /** `a || b` on evaluated operands. */
  function LogicalOr(a: Value, b: Value): Value {
    if Truthy(a) then a else b
  }

  /** `a ?? b` on evaluated operands. */
  function Coalesce(a: Value, b: Value): Value {
    if IsNullish(a) then b else a
  }

  /**
   * An object whose properties are written through `object[property] = value`.
   * A property listed in `setters` is an accessor: its setter, given the value
   * stored so far and the value written, decides what is stored (it may keep the
   * old value, transform the new one, or anything else), and its getter returns
   * what was stored. Any other
   * property is a plain data property. An absent property reads as `undefined`.
   */
  class Target {
    var fields: map<string, Value>
    const setters: map<string, (Value, Value) -> Value>

    constructor (fields: map<string, Value>, setters: map<string, (Value, Value) -> Value>)
      ensures this.fields == fields && this.setters == setters
    {
      this.fields := fields;
      this.setters := setters;
    }

    /** `object[property]`. */
    function Get(property: string): Value
      reads this
    {
      if property in fields then fields[property] else Undefined
    }

    /** What the property holds after `value` is written to it. */
    function Stores(property: string, value: Value): Value
      reads this
    {
      if property in setters then setters[property](Get(property), value) else value
    }

    /** `object[property] = value`, with only `property` changed. */
    method Put(property: string, value: Value)
      modifies this
      ensures fields == old(fields)[property := old(Stores(property, value))]
      ensures Get(property) == old(Stores(property, value))
    {
      fields := fields[property := Stores(property, value)];
    }
  }

  /** The warnings `compare` emits for an expression value and the read-back. */
  function StaleReport(result: Value, readBack: Value, property: string, location: string): seq<Warning> {
    if result != readBack then [AssignmentValueStale(property, location)] else []
  }

  /** Warns when `a !== b`; returns `a` either way. */
  method Compare(a: Value, b: Value, property: string, location: string, log: WarningLog)
      returns (r: Value)
    modifies log
    ensures r == a
    ensures a != b ==> log.entries == old(log.entries) + [AssignmentValueStale(property, location)]
    ensures a == b ==> log.entries == old(log.entries)
  {
    if a != b {
      log.entries := log.entries + [AssignmentValueStale(property, location)];
    }
    return a;
  }

  /** `object[property] = value`, audited. The result is `value`, not the read-back. */
  method Assign(obj: Target, property: string, value: Value, location: string, log: WarningLog)
      returns (r: Value)
    modifies obj, log
    ensures r == value
    ensures obj.fields == old(obj.fields)[property := old(obj.Stores(property, value))]
    ensures log.entries == old(log.entries) + StaleReport(r, obj.Get(property), property, location)
    ensures old(obj.Stores(property, value)) != value ==>
      log.entries == old(log.entries) + [AssignmentValueStale(property, location)]
    ensures property !in obj.setters ==>
      obj.Get(property) == value && log.entries == old(log.entries)
  {
    obj.Put(property, value);
    var readBack := obj.Get(property);
    r := Compare(value, readBack, property, location, log);
  }

  /** `object[property] &&= value`, audited: writes only when the current value is truthy. */
  method AssignAnd(obj: Target, property: string, value: Value, location: string, log: WarningLog)
      returns (r: Value)
    modifies obj, log
    ensures r == LogicalAnd(old(obj.Get(property)), value)
    ensures Truthy(old(obj.Get(property))) ==>
      obj.fields == old(obj.fields)[property := old(obj.Stores(property, value))]
    ensures !Truthy(old(obj.Get(property))) ==>
      r == old(obj.Get(property)) && obj.fields == old(obj.fields) && log.entries == old(log.entries)
    ensures log.entries == old(log.entries) + StaleReport(r, obj.Get(property), property, location)
    ensures property !in obj.setters ==> log.entries == old(log.entries)
  {
    var result := obj.Get(property);
    if Truthy(result) {
      obj.Put(property, value);
      result := value;
    }
    var readBack := obj.Get(property);
    r := Compare(result, readBack, property, location, log);
  }

  /** `object[property] ||= value`, audited: writes only when the current value is falsy. */
  method AssignOr(obj: Target, property: string, value: Value, location: string, log: WarningLog)
      returns (r: Value)
    modifies obj, log
    ensures r == LogicalOr(old(obj.Get(property)), value)
    ensures !Truthy(old(obj.Get(property))) ==>
      obj.fields == old(obj.fields)[property := old(obj.Stores(property, value))]
    ensures Truthy(old(obj.Get(property))) ==>
      r == old(obj.Get(property)) && obj.fields == old(obj.fields) && log.entries == old(log.entries)
    ensures log.entries == old(log.entries) + StaleReport(r, obj.Get(property), property, location)
    ensures property !in obj.setters ==> log.entries == old(log.entries)
  {
    var result := obj.Get(property);
    if !Truthy(result) {
      obj.Put(property, value);
      result := value;
    }
    var readBack := obj.Get(property);
    r := Compare(result, readBack, property, location, log);
  }

  /** `object[property] ??= value`, audited: writes only when the current value is null or undefined. */
  method AssignNullish(obj: Target, property: string, value: Value, location: string, log: WarningLog)
      returns (r: Value)
    modifies obj, log
    ensures r == Coalesce(old(obj.Get(property)), value)
    ensures IsNullish(old(obj.Get(property))) ==>
      obj.fields == old(obj.fields)[property := old(obj.Stores(property, value))]
    ensures !IsNullish(old(obj.Get(property))) ==>
      r == old(obj.Get(property)) && obj.fields == old(obj.fields) && log.entries == old(log.entries)
    ensures log.entries == old(log.entries) + StaleReport(r, obj.Get(property), property, location)
    ensures property !in obj.setters ==> log.entries == old(log.entries)
  {
    var result := obj.Get(property);
    if IsNullish(result) {
      obj.Put(property, value);
      result := value;
    }
    var readBack := obj.Get(property);
    r := Compare(result, readBack, property, location, log);
  }

  /** A setter that stores `Math.floor(value)` for numbers. */
  function Floor(stored: Value, v: Value): Value {
    if v.Num? then Num(v.x.Floor as real) else v
  }

  /** A setter that ignores every write and keeps what it stored before. */
  function Reject(stored: Value, v: Value): Value {
    stored
  }

  /** `assign(obj, "x", value, loc)` on a plain data property stores and returns `value`, silently. */
  method PlainAssignExample(value: Value, location: string)
      returns (r: Value, stored: Value, ghost warnings: seq<Warning>)
    ensures r == value && stored == value && warnings == []
  {
    var log := new WarningLog();
    var obj := new Target(map[], map[]);
    r := Assign(obj, "x", value, location, log);
    stored := obj.Get("x");
    warnings := log.entries;
  }

  /**
   * `assign(obj, "x", 5.7, loc)` where the setter stores `floor(value)`: the
   * property holds 5, the result is still 5.7, and one stale warning names `"x"`.
   */
  method FlooringSetterExample(location: string)
      returns (r: Value, stored: Value, ghost warnings: seq<Warning>)
    ensures r == Num(5.7) && stored == Num(5.0)
    ensures warnings == [AssignmentValueStale("x", location)]
  {
    var log := new WarningLog();
    var obj := new Target(map[], map["x" := Floor]);
    r := Assign(obj, "x", Num(5.7), location, log);
    stored := obj.Get("x");
    warnings := log.entries;
  }

  /**
   * `assign(obj, "x", value, loc)` where the setter rejects every write: the
   * property keeps its old value, the result is still `value`, and one stale
   * warning names `"x"` when the two differ.
   */
  method RejectingSetterExample(current: Value, value: Value, location: string)
      returns (r: Value, stored: Value, ghost warnings: seq<Warning>)
    requires current != value
    ensures r == value && stored == current
    ensures warnings == [AssignmentValueStale("x", location)]
  {
    var log := new WarningLog();
    var obj := new Target(map["x" := current], map["x" := Reject]);
    r := Assign(obj, "x", value, location, log);
    stored := obj.Get("x");
    warnings := log.entries;
  }

  /**
   * `assign_or(obj, "flag", value, loc)` on a truthy property does not write,
   * whatever its setter does: the result is the old value and nothing is reported.
   */
  method TruthyOrAssignExample(current: Value, setter: (Value, Value) -> Value, value: Value, location: string)
      returns (r: Value, stored: Value, ghost warnings: seq<Warning>)
    requires Truthy(current)
    ensures r == current && stored == current && warnings == []
  {
    var log := new WarningLog();
    var obj := new Target(map["flag" := current], map["flag" := setter]);
    r := AssignOr(obj, "flag", value, location, log);
    stored := obj.Get("flag");
    warnings := log.entries;
  }

  /**
   * `assign_and(obj, "x", value, loc)` on a falsy property does not write,
   * whatever its setter does: the result is the old value and nothing is reported.
   */
  method FalsyAndAssignExample(current: Value, setter: (Value, Value) -> Value, value: Value, location: string)
      returns (r: Value, stored: Value, ghost warnings: seq<Warning>)
    requires !Truthy(current)
    ensures r == current && stored == current && warnings == []
  {
    var log := new WarningLog();
    var obj := new Target(map["x" := current], map["x" := setter]);
    r := AssignAnd(obj, "x", value, location, log);
    stored := obj.Get("x");
    warnings := log.entries;
  }

  /**
   * `assign_nullish(obj, "x", value, loc)` on a missing plain property writes
   * `value`, returns it, and reports nothing.
   */
  method MissingNullishAssignExample(value: Value, location: string)
      returns (r: Value, stored: Value, ghost warnings: seq<Warning>)
    ensures r == value && stored == value && warnings == []
  {
    var log := new WarningLog();
    var obj := new Target(map[], map[]);
    r := AssignNullish(obj, "x", value, location, log);
    stored := obj.Get("x");
    warnings := log.entries;
  }
}
