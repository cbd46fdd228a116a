/**
 * The license-metadata mapper: a guarded overwrite of one field of a README
 * metadata dictionary. Before writing, the mapper checks that the field holds the
 * value it expects; expecting nothing (Python's `None`) means the field must be
 * absent.
 */
module LicenseMapper {
  import opened Wrappers

  /** A metadata field's value: a string or a list of strings. */
  datatype Value = Str(s: string) | StrList(items: seq<string>)

  /** Python truthiness of an expected value: `None`, `""` and `[]` are falsy. */
  predicate Truthy(v: Option<Value>)
  {
    match v
    case None => false
    case Some(Str(s)) => s != ""
    case Some(StrList(items)) => items != []
  }

  /** Why a write was refused; each case carries what its message interpolates. */
  datatype MapperException =
    | ExpectedAbsence(key: string, found: Value)
    | ExpectedPresence(key: string)
    | Mismatch(expected: Value, found: Value)

  /**
   * The exception's message, as the source builds it; `show` is Python's `str()`
   * of a value.
   */
  function Message(e: MapperException, show: Value -> string): (m: string)
    ensures e.ExpectedAbsence? ==> StartsWith(m, "Expected absence of key `" + e.key + "` but found ")
    ensures e.ExpectedPresence? ==>
      StartsWith(m, "Expected presence of key " + e.key) && EndsWith(m, " wasnot found.")
    ensures e.Mismatch? ==>
      StartsWith(m, "Expected \"" + show(e.expected) + "\" but found ") && EndsWith(m, " in the README.chromium")
  {
    match e
    case ExpectedAbsence(key, found) =>
      var head := "Expected absence of key `" + key + "` but found ";
      assert (head + show(found))[..|head|] == head;
      head + show(found)
    case ExpectedPresence(key) =>
      PresenceMessageAsWrittenRunsWordsTogether(key);
      var head := "Expected presence of key " + key;
      assert PresenceMessageAsWritten(key) == head + " but wasnot found.";
      PresenceMessageAsWritten(key)
    case Mismatch(expected, found) =>
      var head := "Expected \"" + show(expected) + "\" but found ";
      var tail := " in the README.chromium";
      assert (head + (show(found) + tail))[..|head|] == head;
      assert (head + show(found) + tail) == (head + show(found)) + tail;
      head + show(found) + tail
  }

  /** The message with the missing space restored; the other messages are as written. */
  function CorrectedMessage(e: MapperException, show: Value -> string): (m: string)
    ensures e.ExpectedPresence? ==>
      StartsWith(m, "Expected presence of key " + e.key) && EndsWith(m, " was not found.")
    ensures !e.ExpectedPresence? ==> m == Message(e, show)
  {
    match e
    case ExpectedPresence(key) =>
      PresenceMessageSeparatesWords(key);
      var head := "Expected presence of key " + key;
      assert PresenceMessage(key) == head + " but was not found.";
      PresenceMessage(key)
    case _ => Message(e, show)
  }

  /** The message for a missing key, as the source spells it: two literals joined with no space. */
  function PresenceMessageAsWritten(key: string): string
  {
    "Expected presence of key " + key + " but was" + "not found."
  }

  /** The message for a missing key, with the words separated. */
  function PresenceMessage(key: string): string
  {
    "Expected presence of key " + key + " but was " + "not found."
  }

  predicate StartsWith(s: string, prefix: string)
  {
    |prefix| <= |s| && s[..|prefix|] == prefix
  }

  predicate EndsWith(s: string, suffix: string)
  {
    |suffix| <= |s| && s[|s| - |suffix|..] == suffix
  }

  /** The message as written runs "was" and "not" together. */
  lemma PresenceMessageAsWrittenRunsWordsTogether(key: string)
    ensures !EndsWith(PresenceMessageAsWritten(key), " was not found.")
    ensures EndsWith(PresenceMessageAsWritten(key), " wasnot found.")
  {
    var m := PresenceMessageAsWritten(key);
    var head := "Expected presence of key " + key + " but";
    assert m == head + " wasnot found.";
    assert m[|m| - 14..] == " wasnot found.";
    assert m[|m| - 15] == 't' != " was not found."[0];
  }

  /** The corrected message ends with the intended words. */
  lemma PresenceMessageSeparatesWords(key: string)
    ensures EndsWith(PresenceMessage(key), " was not found.")
  {
    var m := PresenceMessage(key);
    assert m == ("Expected presence of key " + key + " but") + " was not found.";
  }

  /** The caller's metadata dictionary, which a successful write updates in place. */
  class Metadata {
    var fields: map<string, Value>

    constructor (fields: map<string, Value>)
      ensures this.fields == fields
    {
      this.fields := fields;
    }
  }

  /**
   * A mapper: overwrite field `key` with `writeValue`, provided the field now
   * holds `expectedValue` (or is absent, when `expectedValue` is `None`).
   */
  datatype Mapper = Mapper(key: string, expectedValue: Option<Value>, writeValue: Value)
  {
    /**
     * The expectation checks of `write`, in the source's order; the first that
     * fails names the exception, and `None` means the write may go ahead.
     */
    function Check(fields: map<string, Value>): (e: Option<MapperException>)
      ensures key !in fields ==> (e == None <==> !Truthy(expectedValue))
      ensures key in fields ==> (e == None <==> expectedValue == Some(fields[key]))
      ensures expectedValue == None && key in fields ==> e == Some(ExpectedAbsence(key, fields[key]))
      ensures key !in fields && e != None ==> e == Some(ExpectedPresence(key))
      ensures key in fields && expectedValue != None && e != None ==>
        e == Some(Mismatch(expectedValue.value, fields[key]))
    {
      if expectedValue.None? && key in fields then
        Some(ExpectedAbsence(key, fields[key]))
      else if key !in fields && Truthy(expectedValue) then
        Some(ExpectedPresence(key))
      else if key in fields && Some(fields[key]) != expectedValue then
        Some(Mismatch(expectedValue.value, fields[key]))
      else
        None
    }

    /** The fields a write leaves behind: unchanged on failure, one field replaced on success. */
    function Written(fields: map<string, Value>): (r: map<string, Value>)
      ensures Check(fields).Some? ==> r == fields
      ensures Check(fields).None? ==> key in r && r[key] == writeValue
      ensures Check(fields).None? ==> r.Keys == fields.Keys + {key}
      ensures forall k :: k in fields && k != key ==> k in r && r[k] == fields[k]
    {
      if Check(fields).Some? then fields else fields[key := writeValue]
    }

    /**
     * `write(metadata)`: either raises MapperException and leaves the metadata as
     * it was, or sets field `key` to `writeValue` and leaves every other field alone.
     */
    method Write(metadata: Metadata) returns (r: Outcome<MapperException>)
      modifies metadata
      ensures r == if Check(old(metadata.fields)).Some? then Fail(Check(old(metadata.fields)).value) else Pass
      ensures metadata.fields == Written(old(metadata.fields))
    {
      var e := Check(metadata.fields);
      if e.Some? {
        return Fail(e.value);
      }
      metadata.fields := metadata.fields[key := writeValue];
      r := Pass;
    }
  }

  /** Expecting absence of an absent key creates it. */
  lemma AbsentKeyIsCreated(m: Mapper, fields: map<string, Value>)
    requires m.expectedValue == None && m.key !in fields
    ensures m.Check(fields) == None
    ensures m.Written(fields) == fields[m.key := m.writeValue]
  {
  }

  /** A falsy expectation that is not `None` (`""` or `[]`) also lets an absent key be created. */
  lemma FalsyExpectationCreatesAbsentKey(m: Mapper, fields: map<string, Value>)
    requires m.expectedValue == Some(Str("")) || m.expectedValue == Some(StrList([]))
    requires m.key !in fields
    ensures m.Check(fields) == None
    ensures m.key in m.Written(fields) && m.Written(fields)[m.key] == m.writeValue
  {
  }

  /**
   * Applying the same mapper again after it succeeded succeeds exactly when it
   * expects a value and that value is the one it writes.
   */
  lemma SecondWriteSucceedsIff(m: Mapper, fields: map<string, Value>)
    requires m.Check(fields) == None
    ensures m.Check(m.Written(fields)) == None <==> m.expectedValue == Some(m.writeValue)
  {
    assert m.key in m.Written(fields);
  }
}
