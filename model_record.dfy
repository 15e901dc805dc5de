/**
 * scanomatic/generics/model.py: `Model`, a record whose attributes are fixed once it is
 * initialised. The instance `__dict__` is split into the public and private attributes in
 * `dict` and the `_initialized` flag in `initFlag` (None while the key is absent). The
 * class-level `FIELD_TYPES` lives on a `ModelClass` object shared by all instances.
 */
module ModelRecord {
  import opened Wrappers

  const Initialized: string := "_initialized"

  /** A lower-case key: `key == key.lower()` holds for it, so it has no upper-case letter. */
  predicate IsLower(key: string) {
    forall i :: 0 <= i < |key| ==> !('A' <= key[i] <= 'Z')
  }

  predicate StartsWithUnderscore(attr: string) {
    |attr| > 0 && attr[0] == '_'
  }

  /** The class of a model: its `FIELD_TYPES` (the field names of the enum, None until set) and the names the class itself defines. */
  class ModelClass {
    var fieldTypes: Option<set<string>>
    const classAttrs: set<string>

    constructor (classAttrs: set<string>)
      ensures fieldTypes.None? && this.classAttrs == classAttrs
    {
      fieldTypes := None;
      this.classAttrs := classAttrs;
    }

    /** `_hasSetFieldTypes`. */
    function HasSetFieldTypes(): bool
      reads this
    {
      fieldTypes.Some?
    }

    /** `_setFieldTypes(types)`: sets the enum once; false where Python raises "Can't change field types". */
    method SetFieldTypes(types: set<string>) returns (ok: bool)
      modifies this
      ensures ok <==> old(fieldTypes).None?
      ensures fieldTypes == if ok then Some(types) else old(fieldTypes)
    {
      if HasSetFieldTypes() {
        ok := false;
      } else {
        fieldTypes := Some(types);
        ok := true;
      }
    }
  }

  class Model<V> {
    var dict: map<string, V>
    var initFlag: Option<bool>
    const cls: ModelClass

    /** `object.__new__`: an empty instance dictionary. */
    constructor Allocate(cls: ModelClass)
      ensures dict == map[] && initFlag.None? && this.cls == cls
    {
      dict := map[];
      initFlag := None;
      this.cls := cls;
    }

    /** `hasattr(self, attr)` for a name other than `_initialized`. */
    function HasAttr(attr: string): bool
      reads this
    {
      attr in dict || attr in cls.classAttrs
    }

    /** `__iter__`: the attributes whose names do not start with an underscore, with their values. */
    function Iter(): (items: map<string, V>)
      reads this
      ensures forall a :: a in items <==> a in dict && !StartsWithUnderscore(a)
      ensures forall a :: a in items ==> items[a] == dict[a]
    {
      map a | a in dict && !StartsWithUnderscore(a) :: dict[a]
    }

    /**
     * `__init__(**content)`: fixes the class's field types from these keys unless already set,
     * then fails (AttributeError) when a key is not lower case, and otherwise stores the content
     * and marks the record initialised.
     */
    method Init(content: map<string, V>) returns (ok: bool)
      modifies this, cls
      ensures cls.fieldTypes == if old(cls.fieldTypes).None? then Some(content.Keys) else old(cls.fieldTypes)
      ensures ok <==> forall k :: k in content ==> IsLower(k)
      ensures ok ==> dict == old(dict) + (content - {Initialized}) && initFlag == Some(true)
      ensures !ok ==> dict == old(dict) && initFlag == old(initFlag)
    {
      if !cls.HasSetFieldTypes() {
        var _ := cls.SetFieldTypes(content.Keys);
      }
      if exists k :: k in content && !IsLower(k) {
        return false;
      }
      Store(content);
      initFlag := Some(true);
      ok := true;
    }

    /** The `for key, val in content.items(): self.__dict__[key] = val` loop of `__init__`. */
    method Store(content: map<string, V>)
      modifies this
      ensures dict == old(dict) + (content - {Initialized})
      ensures initFlag == if Initialized in content then Some(false) else old(initFlag)
    {
      var todo := content.Keys;
      while todo != {}
        invariant todo <= content.Keys
        invariant dict == old(dict) + (content - todo - {Initialized})
        invariant initFlag == if Initialized in content && Initialized !in todo then Some(false) else old(initFlag)
        decreases |todo|
      {
        var k :| k in todo;
        // The flag is stored in the same dictionary; any value given for it is overwritten below.
        if k == Initialized {
          initFlag := Some(false);
        } else {
          dict := dict[k := content[k]];
        }
        todo := todo - {k};
      }
    }

    /** `_isInitialzed`: stores False for the flag when it is absent, then reads it. */
    method IsInitialized() returns (b: bool)
      modifies this
      ensures initFlag == if old(initFlag).None? then Some(false) else old(initFlag)
      ensures b == initFlag.value && dict == old(dict)
    {
      if initFlag.None? {
        initFlag := Some(false);
      }
      b := initFlag.value;
    }

    /**
     * `__setattr__(attr, value)`: false where Python raises AttributeError, i.e. for the flag
     * itself and, once initialised, for a name the record does not have; otherwise it stores.
     */
    method SetAttr(attr: string, value: V) returns (ok: bool)
      modifies this
      ensures ok <==> (attr != Initialized && (old(initFlag) != Some(true) || old(HasAttr(attr))))
      ensures ok ==> dict == old(dict)[attr := value]
      ensures !ok ==> dict == old(dict)
      ensures attr == Initialized ==> initFlag == old(initFlag)
      ensures attr != Initialized ==> initFlag == if old(initFlag).None? then Some(false) else old(initFlag)
    {
      if attr == Initialized {
        return false;
      }
      var initialized := IsInitialized();
      if initialized && !HasAttr(attr) {
        return false;
      }
      dict := dict[attr := value];
      ok := true;
    }
  }
}
