/**
 * The field validator (validate_fields): it walks a list of candidate field
 * names and splits it into the names it accepts, each kept as it is or
 * replaced by its alias target, and the names it rejects, kept as given.
 * The Python function is duck-typed, so the model is generic in the element
 * type; the translator runs it on decoded JSON values.
 */
module Validator {
  import opened Wrappers

  /**
   * What the validator does with one name: a name in the allow-list is kept,
   * otherwise a key of the alias map is replaced by its target (which is not
   * itself checked against the allow-list), otherwise the name is rejected.
   */
  function Resolve<T>(f: T, validSet: seq<T>, mapping: map<T, T>): (r: Option<T>)
    ensures r.None? <==> f !in validSet && f !in mapping
    ensures f in validSet ==> r == Some(f)
    ensures f !in validSet && f in mapping ==> r == Some(mapping[f])
    ensures r.Some? && r.value != f ==> f !in validSet && f in mapping && r.value == mapping[f]
  {
    if f in validSet then Some(f)
    else if f in mapping then Some(mapping[f])
    else None
  }

  /** The accepted names, in input order. */
  function Accepted<T>(fields: seq<T>, validSet: seq<T>, mapping: map<T, T>): (r: seq<T>)
    ensures |r| <= |fields|
  {
    if fields == [] then []
    else
      var rest := Accepted(fields[1..], validSet, mapping);
      match Resolve(fields[0], validSet, mapping)
      case Some(g) => [g] + rest
      case None => rest
  }

  /**
   * The rejected names, unresolved and in input order. Every input name
   * lands in exactly one of the two lists, duplicates included.
   */
  function Rejected<T>(fields: seq<T>, validSet: seq<T>, mapping: map<T, T>): (r: seq<T>)
    ensures |r| + |Accepted(fields, validSet, mapping)| == |fields|
  {
    if fields == [] then []
    else
      var rest := Rejected(fields[1..], validSet, mapping);
      if Resolve(fields[0], validSet, mapping).None? then [fields[0]] + rest else rest
  }

  /** Both lists are built left to right: the split of a concatenation is the concatenation of the splits. */
  lemma SplitAppend<T>(a: seq<T>, b: seq<T>, validSet: seq<T>, mapping: map<T, T>)
    ensures Accepted(a + b, validSet, mapping) == Accepted(a, validSet, mapping) + Accepted(b, validSet, mapping)
    ensures Rejected(a + b, validSet, mapping) == Rejected(a, validSet, mapping) + Rejected(b, validSet, mapping)
  {
    AcceptedAppend(a, b, validSet, mapping);
    RejectedAppend(a, b, validSet, mapping);
  }

  lemma {:induction false} AcceptedAppend<T>(a: seq<T>, b: seq<T>, validSet: seq<T>, mapping: map<T, T>)
    ensures Accepted(a + b, validSet, mapping) == Accepted(a, validSet, mapping) + Accepted(b, validSet, mapping)
  {
    if a == [] {
      assert a + b == b;
    } else {
      assert (a + b)[0] == a[0];
      assert (a + b)[1..] == a[1..] + b;
      AcceptedAppend(a[1..], b, validSet, mapping);
    }
  }

  lemma {:induction false} RejectedAppend<T>(a: seq<T>, b: seq<T>, validSet: seq<T>, mapping: map<T, T>)
    ensures Rejected(a + b, validSet, mapping) == Rejected(a, validSet, mapping) + Rejected(b, validSet, mapping)
  {
    if a == [] {
      assert a + b == b;
    } else {
      assert (a + b)[0] == a[0];
      assert (a + b)[1..] == a[1..] + b;
      RejectedAppend(a[1..], b, validSet, mapping);
    }
  }

  /** A list made only of allowed names is accepted as it is. */
  lemma {:induction false} AllowedNamesPassUnchanged<T>(fields: seq<T>, validSet: seq<T>, mapping: map<T, T>)
    requires forall i :: 0 <= i < |fields| ==> fields[i] in validSet
    ensures Accepted(fields, validSet, mapping) == fields
    ensures Rejected(fields, validSet, mapping) == []
  {
    if fields != [] {
      AllowedNamesPassUnchanged(fields[1..], validSet, mapping);
    }
  }

  /** A list in which no name is allowed or an alias is rejected as it is. */
  lemma {:induction false} UnknownNamesAllRejected<T>(fields: seq<T>, validSet: seq<T>, mapping: map<T, T>)
    requires forall i :: 0 <= i < |fields| ==> fields[i] !in validSet && fields[i] !in mapping
    ensures Accepted(fields, validSet, mapping) == []
    ensures Rejected(fields, validSet, mapping) == fields
  {
    if fields != [] {
      UnknownNamesAllRejected(fields[1..], validSet, mapping);
    }
  }

  /**
   * A name outside the allow-list that is an alias key is accepted as its
   * target, even when the target is not in the allow-list either.
   */
  lemma AliasResolvedUnchecked<T>(f: T, validSet: seq<T>, mapping: map<T, T>)
    requires f !in validSet && f in mapping
    ensures Accepted([f], validSet, mapping) == [mapping[f]]
    ensures Rejected([f], validSet, mapping) == []
  {
  }

  /** The rejected names are exactly the inputs that are neither allowed nor aliases. */
  lemma {:induction false} RejectedMembers<T>(fields: seq<T>, validSet: seq<T>, mapping: map<T, T>, x: T)
    ensures x in Rejected(fields, validSet, mapping) <==> x in fields && x !in validSet && x !in mapping
  {
    if fields != [] {
      RejectedMembers(fields[1..], validSet, mapping, x);
      assert x in fields <==> x == fields[0] || x in fields[1..];
    }
  }

  /** Nothing is rejected exactly when every input is allowed or an alias. */
  lemma {:induction false} NothingRejected<T>(fields: seq<T>, validSet: seq<T>, mapping: map<T, T>)
    ensures Rejected(fields, validSet, mapping) == [] <==>
            forall i :: 0 <= i < |fields| ==> fields[i] in validSet || fields[i] in mapping
  {
    if fields != [] {
      NothingRejected(fields[1..], validSet, mapping);
      assert forall i :: 1 <= i < |fields| ==> fields[i] == fields[1..][i - 1];
    }
  }

  /**
   * Every accepted name is either an allowed input or the target of an
   * alias key found in the input.
   */
  lemma {:induction false} AcceptedOrigins<T>(fields: seq<T>, validSet: seq<T>, mapping: map<T, T>, x: T)
    requires x in Accepted(fields, validSet, mapping)
    ensures (x in fields && x in validSet) ||
            exists k :: k in fields && k !in validSet && k in mapping && mapping[k] == x
  {
    if x !in Accepted(fields[1..], validSet, mapping) {
      assert Resolve(fields[0], validSet, mapping) == Some(x);
      assert fields[0] in fields;
    } else {
      AcceptedOrigins(fields[1..], validSet, mapping, x);
      if k :| k in fields[1..] && k !in validSet && k in mapping && mapping[k] == x {
        assert k in fields;
      }
    }
  }

  /** One name goes to exactly one list, resolved if accepted and as given if rejected. */
  lemma SplitOne<T>(f: T, validSet: seq<T>, mapping: map<T, T>)
    ensures Accepted([f], validSet, mapping) == if Resolve(f, validSet, mapping).Some? then [Resolve(f, validSet, mapping).value] else []
    ensures Rejected([f], validSet, mapping) == if Resolve(f, validSet, mapping).Some? then [] else [f]
  {
    assert [f][1..] == [];
  }

  /** validate_fields: one pass over the names, appending to `valid` or `invalid`. */
  method ValidateFields<T>(fields: seq<T>, validSet: seq<T>, mapping: map<T, T>)
    returns (valid: seq<T>, invalid: seq<T>)
    ensures valid == Accepted(fields, validSet, mapping)
    ensures invalid == Rejected(fields, validSet, mapping)
  {
    valid, invalid := [], [];
    for i := 0 to |fields|
      invariant valid == Accepted(fields[..i], validSet, mapping)
      invariant invalid == Rejected(fields[..i], validSet, mapping)
    {
      var f := fields[i];
      assert fields[..i + 1] == fields[..i] + [f];
      SplitAppend(fields[..i], [f], validSet, mapping);
      SplitOne(f, validSet, mapping);
      if f in validSet {
        valid := valid + [f];
      } else if f in mapping {
        valid := valid + [mapping[f]];
      } else {
        invalid := invalid + [f];
      }
    }
    assert fields[..|fields|] == fields;
  }
}
