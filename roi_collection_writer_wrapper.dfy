/** The file name under which an uploaded ROI collection is written: its name
    with every character that is not legal in a file name (and every space)
    removed, or "ROI" when nothing is left. */
module RoiCollectionWriter {
  import opened JavaText

  /** The name used when the collection's own name gives none. */
  const DefaultName: string := "ROI"

  /** The characters the pattern [\\/:*?"<>| ] matches. */
  predicate Illegal(c: char)
  {
    c == '\\' || c == '/' || c == ':' || c == '*' || c == '?' || c == '"' ||
    c == '<' || c == '>' || c == '|' || c == ' '
  }

  predicate Legal(s: string)
  {
    forall i :: 0 <= i < |s| ==> !Illegal(s[i])
  }

  /** A writer over a collection; only the collection's name matters here. */
  datatype Wrapper = Wrapper(collectionName: Option<string>)

  /** The constructor: a null collection is refused. */
  function NewWrapper(collection: Option<Option<string>>): (r: Result<Wrapper, string>)
    ensures r.Err? <==> collection.None?
    ensures r.Ok? ==> r.value.collectionName == collection.value
  {
    if collection.None? then Err("ROI collection must not be null") else Ok(Wrapper(collection.value))
  }

  /** String.replaceAll with the pattern above and "": the illegal characters
      dropped, the rest kept in order. */
  function RemoveIllegal(s: string): (r: string)
    ensures Legal(r) && |r| <= |s|
  {
    if s == [] then []
    else if Illegal(s[|s| - 1]) then RemoveIllegal(s[..|s| - 1])
    else RemoveIllegal(s[..|s| - 1]) + [s[|s| - 1]]
  }

  /** getName: never empty and always a legal file name. */
  function GetName(w: Wrapper): (r: string)
    ensures r != [] && Legal(r)
    ensures r == DefaultName <==>
      (w.collectionName.None? || RemoveIllegal(w.collectionName.value) == [] ||
       RemoveIllegal(w.collectionName.value) == DefaultName)
  {
    var name := w.collectionName;
    if name.None? || name.value == [] then DefaultName
    else
      var cleaned := RemoveIllegal(name.value);
      if cleaned == [] then DefaultName else cleaned
  }

  /** Removal works piece by piece: the result for a concatenation is the
      concatenation of the results. */
  lemma {:induction false} RemoveIllegalAppend(a: string, b: string)
    ensures RemoveIllegal(a + b) == RemoveIllegal(a) + RemoveIllegal(b)
    decreases |b|
  {
    if b != [] {
      var init := b[..|b| - 1];
      assert (a + b)[..|a + b| - 1] == a + init;
      RemoveIllegalAppend(a, init);
    } else {
      assert a + b == a;
    }
  }

  /** A legal string is left as it is. */
  lemma {:induction false} RemoveIllegalOfLegal(s: string)
    requires Legal(s)
    ensures RemoveIllegal(s) == s
  {
    if s != [] {
      RemoveIllegalOfLegal(s[..|s| - 1]);
      assert s == s[..|s| - 1] + [s[|s| - 1]];
    }
  }

  /** Every character kept is one of the name's characters. */
  lemma {:induction false} RemoveIllegalKeeps(s: string)
    ensures forall c :: c in RemoveIllegal(s) ==> c in s && !Illegal(c)
    ensures forall c :: c in s && !Illegal(c) ==> c in RemoveIllegal(s)
  {
    if s != [] {
      RemoveIllegalKeeps(s[..|s| - 1]);
      assert s == s[..|s| - 1] + [s[|s| - 1]];
    }
  }

  /** Sanitising twice is sanitising once. */
  lemma RemoveIllegalIdempotent(s: string)
    ensures RemoveIllegal(RemoveIllegal(s)) == RemoveIllegal(s)
  {
    RemoveIllegalOfLegal(RemoveIllegal(s));
  }

  /** A name getName produced comes back unchanged. */
  lemma GetNameIdempotent(w: Wrapper)
    ensures GetName(Wrapper(Some(GetName(w)))) == GetName(w)
  {
    RemoveIllegalOfLegal(GetName(w));
  }
}
