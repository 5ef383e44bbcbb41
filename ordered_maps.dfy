/**
 * The Python dict that maps a document's basename to its text, with the
 * dict's insertion order: a sequence of entries whose names are distinct.
 * `extract_pdf_content` builds one; `handle_query` iterates over it.
 */
module OrderedMaps {
  import opened Wrappers

  /** One key/value pair: a document's basename and its extracted text. */
  datatype Entry = Entry(name: string, text: string)

  /** The keys, in iteration order. */
  function Names(m: seq<Entry>): seq<string>
  {
    seq(|m|, i requires 0 <= i < |m| => m[i].name)
  }

  predicate NoDuplicates<T(==)>(s: seq<T>)
  {
    forall i, j :: 0 <= i < j < |s| ==> s[i] != s[j]
  }

  /** A dict holds each key once. */
  predicate UniqueNames(m: seq<Entry>)
  {
    NoDuplicates(Names(m))
  }

  /** `d.get(name)` */
  function Lookup(m: seq<Entry>, name: string): Option<string>
  {
    if m == [] then None
    else if m[0].name == name then Some(m[0].text)
    else Lookup(m[1..], name)
  }

  lemma NamesCons(e: Entry, m: seq<Entry>)
    ensures Names([e] + m) == [e.name] + Names(m)
  {
    assert forall i :: 0 < i < |m| + 1 ==> ([e] + m)[i] == m[i - 1];
  }

  /** A key is found exactly when it is one of the dict's keys. */
  lemma {:induction false} LookupFound(m: seq<Entry>, name: string)
    ensures Lookup(m, name).Some? <==> name in Names(m)
  {
    if m != [] {
      LookupFound(m[1..], name);
      assert m == [m[0]] + m[1..];
      NamesCons(m[0], m[1..]);
    }
  }

  /** In a dict, looking up the key of entry `i` finds entry `i`'s value. */
  lemma {:induction false} LookupAt(m: seq<Entry>, i: nat)
    requires UniqueNames(m) && i < |m|
    ensures Lookup(m, m[i].name) == Some(m[i].text)
  {
    if i > 0 {
      assert Names(m)[0] != Names(m)[i];
      assert UniqueNames(m[1..]) by {
        forall a, b | 0 <= a < b < |m[1..]| ensures Names(m[1..])[a] != Names(m[1..])[b] {
          assert Names(m)[a + 1] != Names(m)[b + 1];
        }
      }
      LookupAt(m[1..], i - 1);
    }
  }

  /**
   * `d[name] = text`: an existing key keeps its position and gets the new
   * value; a new key is added last. No other key's value changes.
   */
  function Put(m: seq<Entry>, name: string, text: string): (r: seq<Entry>)
    ensures Names(r) == if name in Names(m) then Names(m) else Names(m) + [name]
    ensures Lookup(r, name) == Some(text)
    ensures forall n :: n != name ==> Lookup(r, n) == Lookup(m, n)
  {
    if m == [] then [Entry(name, text)]
    else if m[0].name == name then
      NamesCons(m[0], m[1..]);
      NamesCons(Entry(name, text), m[1..]);
      assert m == [m[0]] + m[1..];
      [Entry(name, text)] + m[1..]
    else
      var rest := Put(m[1..], name, text);
      NamesCons(m[0], m[1..]);
      NamesCons(m[0], rest);
      assert m == [m[0]] + m[1..];
      [m[0]] + rest
  }

  /** Assigning to a dict keeps its keys distinct. */
  lemma PutUnique(m: seq<Entry>, name: string, text: string)
    requires UniqueNames(m)
    ensures UniqueNames(Put(m, name, text))
  {
    var r := Put(m, name, text);
    if name !in Names(m) {
      forall i, j | 0 <= i < j < |Names(r)| ensures Names(r)[i] != Names(r)[j] {
        if j == |Names(m)| {
          assert Names(r)[j] == name && Names(r)[i] == Names(m)[i];
        } else {
          assert Names(r)[i] == Names(m)[i] && Names(r)[j] == Names(m)[j];
        }
      }
    }
  }

  /** Assigning a new key appends it. */
  lemma {:induction false} PutNew(m: seq<Entry>, name: string, text: string)
    requires name !in Names(m)
    ensures Put(m, name, text) == m + [Entry(name, text)]
  {
    if m != [] {
      NamesCons(m[0], m[1..]);
      assert m == [m[0]] + m[1..];
      PutNew(m[1..], name, text);
    }
  }
}
