/** The operator dictionary of section 3.2.5 of MathML 2.0: for each operator
    name, the default attributes of its prefix, infix and postfix forms,
    loaded from a document whose root is `dictionary` and whose `operator`
    children each describe one form of one operator. The document arrives
    already parsed, as a tree of records. */
module OperatorDictionaries {
  import opened Wrappers

  /** A DOM child of the root: an element with its attributes, or any other
      node (text, comment), which may be blank. */
  datatype Node = ElementNode(name: string, attributes: map<string, string>) | OtherNode(blank: bool)

  datatype Root = Root(name: string, children: seq<Node>)

  /** The outcome of parsing the dictionary file: a DOM exception, or a
      document with or without a root element. */
  datatype Parsed = DOMException | Document(root: Option<Root>)

  /** An attribute list as it is stored: attribute name to value. */
  type AttributeList = map<string, string>

  /** The three form slots of a name; a missing list is a null pointer. */
  datatype FormDefaults = FormDefaults(prefix: Option<AttributeList>, infix: Option<AttributeList>, postfix: Option<AttributeList>)

  const NoDefaults := FormDefaults(None, None, None)

  type Dictionary = map<string, FormDefaults>

  /** The operator attributes read from each entry (`direction` is not). */
  const OperatorAttributes: set<string> :=
    {"form", "fence", "separator", "lspace", "rspace", "stretchy", "symmetric",
     "maxsize", "minsize", "largeop", "movablelimits", "accent"}

  /** DOM `getAttribute`: the empty string for an attribute that is absent. */
  function Attribute(n: Node, name: string): string
  {
    if n.ElementNode? && name in n.attributes then n.attributes[name] else ""
  }

  /** The attribute list of an entry: each operator attribute the entry gives
      a non-empty value. */
  function DefaultsOf(n: Node): (d: AttributeList)
    ensures forall a :: a in d <==> a in OperatorAttributes && Attribute(n, a) != ""
    ensures forall a :: a in d ==> d[a] == Attribute(n, a)
  {
    map a | a in OperatorAttributes && Attribute(n, a) != "" :: Attribute(n, a)
  }

  predicate IsOperatorEntry(n: Node)
  {
    n.ElementNode? && n.name == "operator" && Attribute(n, "name") != ""
  }

  /** The slots of a name after one entry for it: each form fills its own
      slot, but the duplicate test of every form looks at the prefix slot,
      and an unknown form fills nothing. */
  function Fill(fd: FormDefaults, form: string, d: AttributeList): FormDefaults
  {
    if form == "prefix" then (if fd.prefix.Some? then fd else fd.(prefix := Some(d)))
    else if form == "infix" then (if fd.prefix.Some? then fd else fd.(infix := Some(d)))
    else if form == "postfix" then (if fd.prefix.Some? then fd else fd.(postfix := Some(d)))
    else fd
  }

  /** One child of the root. `items[opName]` creates the name with null slots
      before the form is even looked at. */
  function AddEntry(items: Dictionary, n: Node): Dictionary
  {
    if IsOperatorEntry(n) then
      var name := Attribute(n, "name");
      var fd := if name in items then items[name] else NoDefaults;
      items[name := Fill(fd, Attribute(n, "form"), DefaultsOf(n))]
    else items
  }

  /** The children of the root, one after the other. */
  function LoadAll(items: Dictionary, nodes: seq<Node>): Dictionary
    decreases |nodes|
  {
    if |nodes| == 0 then items else LoadAll(AddEntry(items, nodes[0]), nodes[1..])
  }

  function Lookup(items: Dictionary, name: string): (r: FormDefaults)
    ensures name !in items ==> r == NoDefaults
  {
    if name in items then items[name] else NoDefaults
  }

  // Properties of loading

  /** A child that is not an `operator` element with a name adds nothing. */
  lemma NonEntryAddsNothing(items: Dictionary, n: Node)
    requires !IsOperatorEntry(n)
    ensures AddEntry(items, n) == items
  {
  }

  /** Once a name has a prefix form, every later entry for it is ignored as a
      duplicate, whatever its form: the prefix slot, and the other two with
      it, are final. */
  lemma {:induction false} PrefixFreezesEntry(items: Dictionary, nodes: seq<Node>, name: string)
    requires name in items && items[name].prefix.Some?
    ensures name in LoadAll(items, nodes) && LoadAll(items, nodes)[name] == items[name]
    decreases |nodes|
  {
    if |nodes| > 0 {
      var next := AddEntry(items, nodes[0]);
      assert name in next && next[name] == items[name];
      PrefixFreezesEntry(next, nodes[1..], name);
    }
  }

  /** The first prefix entry of a name wins: while loading goes on, the slot
      keeps its attributes. */
  lemma FirstPrefixWins(items: Dictionary, n: Node, rest: seq<Node>)
    requires IsOperatorEntry(n) && Attribute(n, "form") == "prefix"
    requires Lookup(items, Attribute(n, "name")).prefix.None?
    ensures var name := Attribute(n, "name");
      name in LoadAll(items, [n] + rest) &&
      LoadAll(items, [n] + rest)[name].prefix == Some(DefaultsOf(n))
  {
    var next := AddEntry(items, n);
    assert ([n] + rest)[1..] == rest;
    PrefixFreezesEntry(next, rest, Attribute(n, "name"));
  }

  /** While the prefix slot of a name is empty, an infix or postfix entry
      overwrites the slot of its form and leaves the other two alone. */
  lemma LaterFormOverwrites(items: Dictionary, n: Node)
    requires IsOperatorEntry(n)
    requires Attribute(n, "form") == "infix" || Attribute(n, "form") == "postfix"
    requires Lookup(items, Attribute(n, "name")).prefix.None?
    ensures var name := Attribute(n, "name");
      var before := Lookup(items, name);
      var after := AddEntry(items, n)[name];
      after.prefix.None? &&
      (Attribute(n, "form") == "infix" ==>
        after.infix == Some(DefaultsOf(n)) && after.postfix == before.postfix) &&
      (Attribute(n, "form") == "postfix" ==>
        after.postfix == Some(DefaultsOf(n)) && after.infix == before.infix)
  {
  }

  /** An entry with a form other than the three still creates its name, with
      null slots when it was new, and changes no other name. */
  lemma InvalidFormCreatesName(items: Dictionary, n: Node)
    requires IsOperatorEntry(n)
    requires Attribute(n, "form") !in {"prefix", "infix", "postfix"}
    ensures var name := Attribute(n, "name");
      AddEntry(items, n).Keys == items.Keys + {name} &&
      AddEntry(items, n)[name] == Lookup(items, name) &&
      (name !in items ==> AddEntry(items, n)[name] == NoDefaults)
  {
  }

  /** The names after loading are the names before and the names of the
      `operator` entries loaded, and no other. */
  lemma {:induction false} LoadedNames(items: Dictionary, nodes: seq<Node>, name: string)
    ensures name in LoadAll(items, nodes) <==>
      name in items || exists k :: 0 <= k < |nodes| && IsOperatorEntry(nodes[k]) && Attribute(nodes[k], "name") == name
    decreases |nodes|
  {
    if |nodes| > 0 {
      LoadedNames(AddEntry(items, nodes[0]), nodes[1..], name);
      assert forall k :: 1 <= k < |nodes| ==> nodes[1..][k - 1] == nodes[k];
      if exists k :: 0 <= k < |nodes| && IsOperatorEntry(nodes[k]) && Attribute(nodes[k], "name") == name {
        var k :| 0 <= k < |nodes| && IsOperatorEntry(nodes[k]) && Attribute(nodes[k], "name") == name;
        if k > 0 {
          assert nodes[1..][k - 1] == nodes[k];
        }
      }
    }
  }

  class OperatorDictionary {
    var items: Dictionary

    constructor ()
      ensures items == map[]
    {
      items := map[];
    }

    /** Fails, adding nothing, on a DOM exception, on a document without a
        root and on a root that is not `dictionary`; otherwise adds every
        `operator` child and succeeds. */
    method Load(doc: Parsed) returns (ok: bool)
      modifies this
      ensures ok <==> doc.Document? && doc.root.Some? && doc.root.value.name == "dictionary"
      ensures ok ==> items == LoadAll(old(items), doc.root.value.children)
      ensures !ok ==> items == old(items)
    {
      if doc.DOMException? {
        return false;
      }
      if doc.root.None? {
        return false;
      }
      var root := doc.root.value;
      if root.name != "dictionary" {
        return false;
      }
      var children := root.children;
      var k := 0;
      while k < |children|
        invariant 0 <= k <= |children|
        invariant LoadAll(old(items), children) == LoadAll(items, children[k..])
      {
        assert children[k..][1..] == children[k + 1..];
        var op := children[k];
        if op.ElementNode? && op.name == "operator" {
          var opName := Attribute(op, "name");
          if opName != "" {
            var defaults := DefaultsOf(op);
            var formDefaults := if opName in items then items[opName] else NoDefaults;
            var form := Attribute(op, "form");
            if form == "prefix" {
              if formDefaults.prefix.None? {
                formDefaults := formDefaults.(prefix := Some(defaults));
              }
            } else if form == "infix" {
              if formDefaults.prefix.None? {
                formDefaults := formDefaults.(infix := Some(defaults));
              }
            } else if form == "postfix" {
              if formDefaults.prefix.None? {
                formDefaults := formDefaults.(postfix := Some(defaults));
              }
            }
            items := items[opName := formDefaults];
          }
        }
        k := k + 1;
      }
      assert children[k..] == [];
      return true;
    }

    /** Keeps the loaded entries: its body is empty. */
    method Unload()
      ensures unchanged(this)
    {
    }

    /** All three slots of the name, or three null pointers for an unknown
        name. */
    method Search(opName: string) returns (prefix: Option<AttributeList>, infix: Option<AttributeList>, postfix: Option<AttributeList>)
      ensures opName !in items ==> prefix.None? && infix.None? && postfix.None?
      ensures opName in items ==>
        FormDefaults(prefix, infix, postfix) == items[opName]
    {
      prefix, infix, postfix := None, None, None;
      if opName in items {
        prefix, infix, postfix := items[opName].prefix, items[opName].infix, items[opName].postfix;
      }
    }
  }
}
