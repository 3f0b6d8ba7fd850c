/**
 * `SimpleSamlManager::extractAttribute`: the value of an attribute of the
 * current SAML session, where an identifier such as "eduPersonAffiliation[1]"
 * selects one value of a multi-valued attribute and any other identifier is
 * handed to the authentication manager's own accessor.
 *
 * The session is not looked up here: what `getAttributes()` returns and the
 * accessor `getAttribute()` are parameters.
 */
module SimpleSamlManager {
  import opened Wrappers
  import opened AttributePattern
  import Php

  /** The session's attributes: each name with its ordered values. */
  type Attributes = map<string, seq<string>>

  /** What a call gives back: a string, PHP's NULL, or an exception of type E that passes through. */
  datatype Outcome<E> = Value(value: string) | Null | Raised(error: E)

  /**
   * The value of `attribute`. `attributes` is what `getAttributes()` returns
   * (None when it is not set); `getAttribute` is the manager's accessor for a
   * plain attribute name, which may raise.
   */
  function ExtractAttribute<E>(attribute: string, attributes: Option<Attributes>, getAttribute: string -> Outcome<E>): (r: Outcome<E>)
    ensures !HasMatch(attribute) ==> r == getAttribute(attribute)
    ensures HasMatch(attribute) ==> r.Value? || r.Null?
    ensures HasMatch(attribute) && r.Value? ==> !Php.IsEmpty(r.value)
  {
    match Parse(attribute)
    case None => getAttribute(attribute)
    case Some((name, index)) =>
      if attributes.None? || name !in attributes.value then
        Null
      else
        match Php.ListElement(attributes.value[name], index)
        case Some(v) => if Php.IsEmpty(v) then Null else Value(v)
        case None => Null
  }

  /** With an indexed identifier the accessor is never consulted. */
  lemma IndexedIgnoresAccessor<E>(attribute: string, attributes: Option<Attributes>, getAttribute: string -> Outcome<E>, other: string -> Outcome<E>)
    requires HasMatch(attribute)
    ensures ExtractAttribute(attribute, attributes, getAttribute) == ExtractAttribute(attribute, attributes, other)
  {
  }

  /**
   * A value found through the index is the stored element of the first
   * match's name at the position the index spells, and it is not empty.
   */
  lemma IndexedValueIsStoredElement<E>(attribute: string, attributes: Option<Attributes>, getAttribute: string -> Outcome<E>, p: nat, q: nat, d: nat)
    requires IsFirstMatch(attribute, p, q, d)
    requires ExtractAttribute(attribute, attributes, getAttribute).Value?
    ensures attributes.Some? && attribute[p..q] in attributes.value
    ensures exists n: nat ::
      && n < |attributes.value[attribute[p..q]]| && n <= Php.IntMax
      && attribute[q + 1..d] == Php.DecimalString(n)
      && attributes.value[attribute[p..q]][n] == ExtractAttribute(attribute, attributes, getAttribute).value
    ensures !Php.IsEmpty(ExtractAttribute(attribute, attributes, getAttribute).value)
  {
    ParseFirstMatch(attribute, p, q, d);
    var index := attribute[q + 1..d];
    var n := Php.ListIndex(index).value;
    Php.ListIndexSpelling(index, n);
  }

  /** Conversely, a non-empty stored element at the position the index spells is returned. */
  lemma IndexedFindsStoredElement<E>(attribute: string, attributes: Attributes, getAttribute: string -> Outcome<E>, p: nat, q: nat, d: nat, n: nat)
    requires IsFirstMatch(attribute, p, q, d)
    requires attribute[p..q] in attributes && n < |attributes[attribute[p..q]]|
    requires n <= Php.IntMax && attribute[q + 1..d] == Php.DecimalString(n)
    requires !Php.IsEmpty(attributes[attribute[p..q]][n])
    ensures ExtractAttribute(attribute, Some(attributes), getAttribute) == Value(attributes[attribute[p..q]][n])
  {
    ParseFirstMatch(attribute, p, q, d);
    Php.ListIndexSpelling(attribute[q + 1..d], n);
  }

  /** An unset attribute store yields NULL on the indexed path. */
  lemma IndexedUnsetStoreIsNull<E>(attribute: string, getAttribute: string -> Outcome<E>)
    requires HasMatch(attribute)
    ensures ExtractAttribute(attribute, None, getAttribute) == Null
  {
  }

  /** A name missing from the store yields NULL. */
  lemma IndexedMissingNameIsNull<E>(attribute: string, attributes: Attributes, getAttribute: string -> Outcome<E>, p: nat, q: nat, d: nat)
    requires IsFirstMatch(attribute, p, q, d)
    requires attribute[p..q] !in attributes
    ensures ExtractAttribute(attribute, Some(attributes), getAttribute) == Null
  {
    ParseFirstMatch(attribute, p, q, d);
  }

  /** An index at or past the end of the named values yields NULL, however it is spelled. */
  lemma IndexedPastEndIsNull<E>(attribute: string, attributes: Attributes, getAttribute: string -> Outcome<E>, p: nat, q: nat, d: nat)
    requires IsFirstMatch(attribute, p, q, d)
    requires attribute[p..q] in attributes
    requires Ascii.IsDigits(attribute[q + 1..d]) && Php.DecimalValue(attribute[q + 1..d]) >= |attributes[attribute[p..q]]|
    ensures ExtractAttribute(attribute, Some(attributes), getAttribute) == Null
  {
    ParseFirstMatch(attribute, p, q, d);
  }

  /** An index with a leading zero, such as "01", stays a string key and yields NULL. */
  lemma IndexedLeadingZeroIsNull<E>(attribute: string, attributes: Option<Attributes>, getAttribute: string -> Outcome<E>, p: nat, q: nat, d: nat)
    requires IsFirstMatch(attribute, p, q, d)
    requires d - q > 2 && attribute[q + 1] == '0'
    ensures ExtractAttribute(attribute, attributes, getAttribute) == Null
  {
    ParseFirstMatch(attribute, p, q, d);
  }

  /** A stored element that PHP's `empty()` accepts ("" or "0") yields NULL. */
  lemma IndexedEmptyElementIsNull<E>(attribute: string, attributes: Attributes, getAttribute: string -> Outcome<E>, p: nat, q: nat, d: nat, n: nat)
    requires IsFirstMatch(attribute, p, q, d)
    requires attribute[p..q] in attributes && n < |attributes[attribute[p..q]]|
    requires attribute[q + 1..d] == Php.DecimalString(n)
    requires Php.IsEmpty(attributes[attribute[p..q]][n])
    ensures ExtractAttribute(attribute, Some(attributes), getAttribute) == Null
  {
    ParseFirstMatch(attribute, p, q, d);
    Php.DecimalValueOfString(n);
  }

  /** "eduPersonAffiliation[1]" selects the second value, not the first. */
  lemma SecondValueExample<E>(getAttribute: string -> Outcome<E>)
    ensures ExtractAttribute("eduPersonAffiliation[1]", Some(map["eduPersonAffiliation" := ["A", "B", "C"]]), getAttribute) == Value("B")
  {
    var s := "eduPersonAffiliation[1]";
    WholeMatchIsFirst(s, 20, 22);
    assert s[0..20] == "eduPersonAffiliation" && s[21..22] == Php.DecimalString(1);
    IndexedFindsStoredElement(s, map["eduPersonAffiliation" := ["A", "B", "C"]], getAttribute, 0, 20, 22, 1);
  }

  /** "eduPersonAffiliation[0]" selects the only value. */
  lemma SingleValueExample<E>(getAttribute: string -> Outcome<E>)
    ensures ExtractAttribute("eduPersonAffiliation[0]", Some(map["eduPersonAffiliation" := ["A"]]), getAttribute) == Value("A")
  {
    var s := "eduPersonAffiliation[0]";
    WholeMatchIsFirst(s, 20, 22);
    assert s[0..20] == "eduPersonAffiliation" && s[21..22] == Php.DecimalString(0);
    IndexedFindsStoredElement(s, map["eduPersonAffiliation" := ["A"]], getAttribute, 0, 20, 22, 0);
  }

  /** "eduPersonAffiliation[5]" is past the end of three values and yields NULL. */
  lemma PastEndExample<E>(getAttribute: string -> Outcome<E>)
    ensures ExtractAttribute("eduPersonAffiliation[5]", Some(map["eduPersonAffiliation" := ["A", "B", "C"]]), getAttribute) == Null
  {
    var s := "eduPersonAffiliation[5]";
    WholeMatchIsFirst(s, 20, 22);
    assert s[0..20] == "eduPersonAffiliation" && s[21..22] == "5";
    IndexedPastEndIsNull(s, map["eduPersonAffiliation" := ["A", "B", "C"]], getAttribute, 0, 20, 22);
  }

  /** "missingAttr[0]" names no stored attribute and yields NULL. */
  lemma MissingAttributeExample<E>(getAttribute: string -> Outcome<E>)
    ensures ExtractAttribute("missingAttr[0]", Some(map["eduPersonAffiliation" := ["A", "B", "C"]]), getAttribute) == Null
  {
    var s := "missingAttr[0]";
    WholeMatchIsFirst(s, 11, 13);
    ParseFirstMatch(s, 0, 11, 13);
    assert s[0..11] == "missingAttr";
  }

  /** "eduPersonAffiliation[01]" spells no list position and yields NULL. */
  lemma LeadingZeroExample<E>(getAttribute: string -> Outcome<E>)
    ensures ExtractAttribute("eduPersonAffiliation[01]", Some(map["eduPersonAffiliation" := ["A", "B", "C"]]), getAttribute) == Null
  {
    var s := "eduPersonAffiliation[01]";
    WholeMatchIsFirst(s, 20, 23);
    IndexedLeadingZeroIsNull(s, Some(map["eduPersonAffiliation" := ["A", "B", "C"]]), getAttribute, 0, 20, 23);
  }

  /** "foo[abc]" is not indexed syntax, so the accessor answers for it, exception included. */
  lemma NonNumericIndexExample<E>(attributes: Option<Attributes>, getAttribute: string -> Outcome<E>)
    ensures ExtractAttribute("foo[abc]", attributes, getAttribute) == getAttribute("foo[abc]")
  {
    AttributePattern.NonNumericIndexExample();
  }
}
