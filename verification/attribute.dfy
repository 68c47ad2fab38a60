/**
 * Attributes stored on an object (src/attribute.c).  An object either has
 * no attribute mapping at all or a mapping from attribute names to values;
 * names are Strings, compared by their code points.
 */
module Attribute {
  import opened Wrappers
  import opened Objects
  import Interp

  type Name = Interp.Name

  type Attrs<V> = Option<map<Name, V>>

  const NoAttributes := Exception("Error", "%D has no attributes")

  const NoSuchAttribute := Exception("Error", "%D has no attribute named '%S'")

  /** attribute_get and attribute_getwithustr (the same code for a C
      string and a Unicode string): an object without an attribute mapping
      and a missing name are two different errors. */
  function Get<V>(attrs: Attrs<V>, name: Name): (r: Result<V, Exception>)
    ensures r.Ok? <==> attrs.Some? && name in attrs.value
    ensures r.Ok? ==> r.value == attrs.value[name]
    ensures attrs.None? ==> r == Err(NoAttributes)
    ensures attrs.Some? && name !in attrs.value ==> r == Err(NoSuchAttribute)
  {
    match attrs
    case None => Err(NoAttributes)
    case Some(m) => if name in m then Ok(m[name]) else Err(NoSuchAttribute)
  }

  /** attribute_set: adds or replaces one name in the mapping. */
  function Set<V>(attrs: Attrs<V>, name: Name, val: V): (r: Result<Attrs<V>, Exception>)
    ensures r.Ok? <==> attrs.Some?
    ensures attrs.None? ==> r == Err(NoAttributes)
    ensures r.Ok? ==> r.value.Some? && r.value.value.Keys == attrs.value.Keys + {name}
  {
    match attrs
    case None => Err(NoAttributes)
    case Some(m) => Ok(Some(m[name := val]))
  }

  /** Getting a name after setting it gives the value set; every other
      name gives what it gave before. */
  lemma SetThenGet<V>(attrs: Attrs<V>, name: Name, val: V, other: Name)
    requires attrs.Some?
    ensures Get(Set(attrs, name, val).value, name) == Ok(val)
    ensures other != name ==> Get(Set(attrs, name, val).value, other) == Get(attrs, other)
  {
  }
}
