/**
 A document of the index (index/clucenedocumentwrapper.cpp): the id of its resource, one field for every
 property, and the entries of the default search field.
 */
module Documents {
  import opened Wrappers
  import opened IndexStates

  datatype Field = IdField(id: Id) | Property(name: string, text: string) | TextField(text: string)

  type Document = seq<Field>

  // ----- What a document holds -----

  function PropertyOf(f: Field): Entries {
    if f.Property? then multiset{(f.name, f.text)} else multiset{}
  }

  /** The property fields. */
  function Properties(d: Document): Entries {
    if d == [] then multiset{} else Properties(d[..|d| - 1]) + PropertyOf(d[|d| - 1])
  }

  function TextIn(f: Field): multiset<string> {
    if f.TextField? then multiset{f.text} else multiset{}
  }

  /** The entries of the default search field. */
  function Texts(d: Document): multiset<string> {
    if d == [] then multiset{} else Texts(d[..|d| - 1]) + TextIn(d[|d| - 1])
  }

  function ValueIn(f: Field): multiset<string> {
    if f.Property? then multiset{f.text} else multiset{}
  }

  /** The values of the property fields. */
  function Values(d: Document): multiset<string> {
    if d == [] then multiset{} else Values(d[..|d| - 1]) + ValueIn(d[|d| - 1])
  }

  function IdOf(d: Document): Option<Id> {
    if d == [] then None else if d[0].IdField? then Some(d[0].id) else IdOf(d[1..])
  }

  /** A default search finds exactly the property values. */
  predicate TextAgrees(d: Document) {
    Texts(d) == Values(d)
  }

  lemma {:induction false} IdAtEnd(d: Document, f: Field)
    ensures IdOf(d + [f]) == if IdOf(d).Some? then IdOf(d) else if f.IdField? then Some(f.id) else None
  {
    if d == [] {
      assert d + [f] == [f];
    } else if !d[0].IdField? {
      IdAtEnd(d[1..], f);
      assert (d + [f])[1..] == d[1..] + [f];
    }
  }

  lemma Appended(d: Document, f: Field)
    ensures Properties(d + [f]) == Properties(d) + PropertyOf(f)
    ensures Texts(d + [f]) == Texts(d) + TextIn(f)
    ensures Values(d + [f]) == Values(d) + ValueIn(f)
    ensures IdOf(d + [f]) == if IdOf(d).Some? then IdOf(d) else if f.IdField? then Some(f.id) else None
  {
    hide IdOf, PropertyOf, TextIn, ValueIn;
    assert (d + [f])[..|d|] == d;
    IdAtEnd(d, f);
  }

  // ----- Removing fields -----

  // Document::removeFields: a field name is the id, the default search field, or the name of a property.
  datatype FieldName = Text | Named(name: string)

  predicate HasName(f: Field, name: FieldName) {
    match name case Text => f.TextField? case Named(n) => f.Property? && f.name == n
  }

  function WithoutFields(d: Document, name: FieldName): Document {
    if d == [] then []
    else WithoutFields(d[..|d| - 1], name) + if HasName(d[|d| - 1], name) then [] else [d[|d| - 1]]
  }

  // Document::getValues
  function ValuesOf(d: Document, name: string): seq<string> {
    if d == [] then []
    else ValuesOf(d[..|d| - 1], name) + if HasName(d[|d| - 1], Named(name)) then [d[|d| - 1].text] else []
  }

  // The entries of one field.
  function EntriesFor(name: string, values: seq<string>): Entries {
    if values == [] then multiset{}
    else EntriesFor(name, values[..|values| - 1]) + multiset{(name, values[|values| - 1])}
  }

  lemma {:induction false} EntriesForAppended(name: string, values: seq<string>, v: string)
    ensures EntriesFor(name, values + [v]) == EntriesFor(name, values) + multiset{(name, v)}
  {
    assert (values + [v])[..|values|] == values;
  }

  // Removing the fields of a name takes its entries away and leaves everything else.
  lemma {:induction false} RemovedFields(d: Document, name: string)
    ensures var w := WithoutFields(d, Named(name));
            && Properties(d) == Properties(w) + EntriesFor(name, ValuesOf(d, name))
            && Texts(w) == Texts(d) && IdOf(w) == IdOf(d)
    decreases |d|
  {
    hide IdOf, Properties, Texts, EntriesFor, Values, ValueIn;
    if d == [] {
      NothingInEmpty(name);
    } else {
      var front, last := d[..|d| - 1], d[|d| - 1];
      RemovedFields(front, name);
      Appended(front, last);
      assert d == front + [last];
      var w := WithoutFields(front, Named(name));
      if HasName(last, Named(name)) {
        assert WithoutFields(d, Named(name)) == w;
        EntriesForAppended(name, ValuesOf(front, name), last.text);
      } else {
        Appended(w, last);
        assert ValuesOf(d, name) == ValuesOf(front, name);
      }
    }
  }

  lemma NothingInEmpty(name: string)
    ensures Properties([]) == multiset{} && Texts([]) == multiset{} && Values([]) == multiset{}
    ensures EntriesFor(name, []) == multiset{}
  {
  }

  lemma {:induction false} NoFieldLeft(d: Document, name: string, text: string)
    ensures Properties(WithoutFields(d, Named(name)))[(name, text)] == 0
    decreases |d|
  {
    if d != [] {
      var front, last := d[..|d| - 1], d[|d| - 1];
      NoFieldLeft(front, name, text);
      var w := WithoutFields(front, Named(name));
      if HasName(last, Named(name)) { assert w + [] == w; } else { Appended(w, last); }
    }
  }

  // The entries of one field except those of one text.
  function Kept(name: string, values: seq<string>, text: string): Entries {
    EntriesFor(name, values)[(name, text) := 0]
  }

  lemma KeptAppended(name: string, values: seq<string>, v: string, text: string)
    ensures Kept(name, [], text) == multiset{}
    ensures Kept(name, values + [v], text) ==
            Kept(name, values, text) + if v == text then multiset{} else multiset{(name, v)}
  {
    EntriesForAppended(name, values, v);
  }

  lemma KeptIsRest(all: Entries, rest: Entries, name: string, values: seq<string>, text: string)
    requires all == rest + EntriesFor(name, values) && rest[(name, text)] == 0
    ensures rest + Kept(name, values, text) == all[(name, text) := 0]
  {
  }

  // Removing the default search field leaves the id and the properties.
  lemma {:induction false} RemovedTexts(d: Document)
    ensures var w := WithoutFields(d, Text);
            Properties(w) == Properties(d) && Values(w) == Values(d) && Texts(w) == multiset{} && IdOf(w) == IdOf(d)
    decreases |d|
  {
    hide IdOf, Properties, Texts, Values;
    if d == [] {
      NothingInEmpty("");
    } else {
      var front, last := d[..|d| - 1], d[|d| - 1];
      RemovedTexts(front);
      Appended(front, last);
      assert d == front + [last];
      if last.TextField? {
        assert WithoutFields(d, Text) == WithoutFields(front, Text);
      } else {
        assert WithoutFields(d, Text) == WithoutFields(front, Text) + [last];
        Appended(WithoutFields(front, Text), last);
      }
    }
  }

  /** What a document says about its resource is unchanged, and a default search finds exactly its values. */
  predicate Reindexed(d: Document, d': Document) {
    Properties(d') == Properties(d) && Values(d') == Values(d) && IdOf(d') == IdOf(d) && TextAgrees(d')
  }

  class DocumentWrapper {
    var document: Document

    constructor (document: Document)
      ensures this.document == document
    {
      this.document := document;
    }

    method AddField(f: Field)
      modifies this
      ensures document == old(document) + [f]
    {
      document := document + [f];
    }

    method RemoveFields(name: FieldName)
      modifies this
      ensures document == WithoutFields(old(document), name)
    {
      var kept := [];
      for i := 0 to |document|
        invariant document == old(document) && kept == WithoutFields(document[..i], name)
      {
        assert document[..i + 1][..i] == document[..i];
        if !HasName(document[i], name) { kept := kept + [document[i]]; }
      }
      assert document[..|document|] == document;
      document := kept;
    }

    method GetValues(name: string) returns (values: seq<string>)
      ensures values == ValuesOf(document, name)
    {
      values := [];
      for i := 0 to |document|
        invariant values == ValuesOf(document[..i], name)
      {
        assert document[..i + 1][..i] == document[..i];
        if HasName(document[i], Named(name)) { values := values + [document[i].text]; }
      }
      assert document[..|document|] == document;
    }

    /** One more entry; a default search finds its text unless it is a URI. */
    method AddProperty(name: string, text: string, isUri: bool)
      modifies this
      ensures Properties(document) == old(Properties(document)) + multiset{(name, text)}
      ensures Values(document) == old(Values(document)) + multiset{text}
      ensures Texts(document) == old(Texts(document)) + if isUri then multiset{} else multiset{text}
      ensures old(TextAgrees(document)) ==> (TextAgrees(document) <==> !isUri)
      ensures IdOf(document) == old(IdOf(document))
    {
      hide IdOf, Properties, Values, Texts;
      Appended(document, Property(name, text));
      AddField(Property(name, text));
      if !isUri {
        Appended(document, TextField(text));
        AddField(TextField(text));
      }
    }

    // Takes the fields of the name out and puts back those with another text.
    method RemoveFromField(name: string, text: string, isUri: bool)
      modifies this
      ensures Properties(document) == old(Properties(document))[(name, text) := 0]
      ensures isUri ==> Texts(document) == old(Texts(document))
      ensures IdOf(document) == old(IdOf(document))
    {
      hide IdOf, Properties, Texts, Values, WithoutFields, ValuesOf, EntriesFor, Kept;
      RemovedFields(document, name);
      NoFieldLeft(document, name, text);
      var values := GetValues(name);
      ghost var rest := WithoutFields(document, Named(name));
      KeptIsRest(Properties(document), Properties(rest), name, values, text);
      if values != [] {
        RemoveFields(Named(name));
        KeptAppended(name, [], "", text);
        for i := 0 to |values|
          invariant Properties(document) == Properties(rest) + Kept(name, values[..i], text)
          invariant isUri ==> Texts(document) == Texts(rest)
          invariant IdOf(document) == IdOf(rest)
        {
          assert values[..i + 1] == values[..i] + [values[i]];
          KeptAppended(name, values[..i], values[i], text);
          if values[i] != text { AddProperty(name, values[i], isUri); }
        }
        assert values[..|values|] == values;
      } else {
        KeptAppended(name, [], "", text);
        NothingInEmpty(name);
      }
    }

    // Rebuilds the default search field from all properties.
    method RebuildText()
      modifies this
      ensures Reindexed(old(document), document)
    {
      hide IdOf, Properties, Texts, Values, WithoutFields;
      RemovedTexts(document);
      RemoveFields(Text);
      var fields := document;
      NothingInEmpty("");
      for i := 0 to |fields|
        invariant Texts(document) == Values(fields[..i])
        invariant Properties(document) == Properties(fields) && Values(document) == Values(fields)
        invariant IdOf(document) == IdOf(fields)
      {
        assert fields[..i + 1] == fields[..i] + [fields[i]];
        Appended(fields[..i], fields[i]);
        if fields[i].Property? {
          Appended(document, TextField(fields[i].text));
          AddField(TextField(fields[i].text));
        }
      }
      assert fields[..|fields|] == fields;
    }

    /**
     All copies of one entry are removed and nothing else; removing a literal makes a default search find exactly
     the remaining values, whatever it found before, and removing a URI leaves the search as it was.
     */
    method RemoveProperty(name: string, text: string, isUri: bool)
      modifies this
      ensures Properties(document) == old(Properties(document))[(name, text) := 0]
      ensures IdOf(document) == old(IdOf(document))
      ensures if isUri then Texts(document) == old(Texts(document)) else TextAgrees(document)
    {
      hide IdOf, Properties, Texts, Values;
      RemoveFromField(name, text, isUri);
      if !isUri { RebuildText(); }
    }

    /** Copies the properties of a stored document into this one, all as literals. */
    method CopyProperties(stored: Document)
      requires Properties(document) == multiset{} && TextAgrees(document)
      modifies this
      ensures Properties(document) == Properties(stored) && TextAgrees(document)
      ensures IdOf(document) == old(IdOf(document))
    {
      hide IdOf, Properties, Texts, Values;
      NothingInEmpty("");
      for i := 0 to |stored|
        invariant Properties(document) == Properties(stored[..i]) && TextAgrees(document)
        invariant IdOf(document) == old(IdOf(document))
      {
        assert stored[..i + 1] == stored[..i] + [stored[i]];
        Appended(stored[..i], stored[i]);
        if stored[i].Property? { AddProperty(stored[i].name, stored[i].text, false); }
      }
      assert stored[..|stored|] == stored;
    }
  }
}
