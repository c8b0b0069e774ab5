/** Namespace bindings (xmlparse.c): every prefix knows its innermost binding, and every binding the one it hides. */
module Bindings {
  import opened Wrappers
  import opened Lists

  const XML_NAMESPACE: string := "http://www.w3.org/XML/1998/namespace"
  const XMLNS_NAMESPACE: string := "http://www.w3.org/2000/xmlns/"
  const EXPAND_SPARE: nat := 24

  datatype XmlError =
    | NoError
    | NoMemory
    | UndeclaringPrefix
    | ReservedPrefixXml
    | ReservedPrefixXmlns
    | ReservedNamespaceUri
    | AsyncEntity

  /** PREFIX; only the default prefix has no name. */
  class Prefix {
    const name: Option<string>
    var binding: Binding?

    constructor (name: Option<string>)
      ensures this.name == name && binding == null
    {
      this.name, binding := name, null;
    }
  }

  /** BINDING; `uri` is the used part of a buffer of `uriAlloc` characters. */
  class Binding {
    var prefix: Prefix?
    var prevPrefixBinding: Binding?
    var uri: string
    var uriAlloc: nat

    constructor (uriAlloc: nat)
      ensures this.uriAlloc == uriAlloc && uri == ""
    {
      prefix, prevPrefixBinding, uri := null, null, "";
      this.uriAlloc := uriAlloc;
    }
  }

  /** A declaration in scope and the binding that was made for it. */
  datatype Decl = Decl(prefix: Prefix, uri: string, binding: Binding)

  function BindingsOf(ds: seq<Decl>): (bs: seq<Binding>)
    ensures |bs| == |ds|
  {
    if ds == [] then [] else [ds[0].binding] + BindingsOf(ds[1..])
  }

  /** The declarations of all open elements, newest first. */
  function Flat(open: seq<seq<Decl>>): seq<Decl> {
    if open == [] then [] else open[0] + Flat(open[1..])
  }

  /** The innermost declaration of a prefix. */
  function Innermost(ds: seq<Decl>, p: Prefix): Option<Decl> {
    if ds == [] then None else if ds[0].prefix == p then Some(ds[0]) else Innermost(ds[1..], p)
  }

  /** What a prefix is bound to: nothing if it is not declared, or if the innermost declaration is of the empty name. */
  function Current(ds: seq<Decl>, p: Prefix): Binding? {
    var d := Innermost(ds, p);
    if d.None? || d.value.uri == "" then null else d.value.binding
  }

  /** The name as it is stored. */
  function Stored(uri: string, separator: Option<char>): string {
    if separator.Some? then uri + [separator.value] else uri
  }

  /** Every binding has the name of its declaration and remembers the binding that the declaration hides. */
  ghost predicate Backed(ds: seq<Decl>, separator: Option<char>)
    reads (set d | d in ds :: d.binding)`prefix, (set d | d in ds :: d.binding)`uri, (set d | d in ds :: d.binding)`prevPrefixBinding
  {
    if ds == [] then true
    else
      && ds[0].binding.prefix == ds[0].prefix
      && ds[0].binding.uri == Stored(ds[0].uri, separator)
      && ds[0].binding.prevPrefixBinding == Current(ds[1..], ds[0].prefix)
      && Backed(ds[1..], separator)
  }

  /** The lists of bindings of the open elements. */
  function TagLists(open: seq<seq<Decl>>): seq<seq<Binding>> {
    if open == [] then [] else [BindingsOf(open[0])] + TagLists(open[1..])
  }

  /** No binding is in two lists, so none in scope is free. */
  ghost predicate Separate(open: seq<seq<Decl>>, free: seq<Binding>, repr: set<Binding>) {
    && Distinct(BindingsOf(Flat(open)), free)
    && (forall b :: b in free ==> b in repr)
  }

  lemma {:induction false} NotDeclared(ds: seq<Decl>, p: Prefix)
    requires forall d :: d in ds ==> d.prefix != p
    ensures Innermost(ds, p) == None
  {
    if ds != [] {
      NotDeclared(ds[1..], p);
    }
  }

  /** A declaration pushed on those of the innermost element. */
  function Push(d: Decl, open: seq<seq<Decl>>): (r: seq<seq<Decl>>)
    requires open != []
    ensures r != [] && r[0] != []
  {
    [[d] + open[0]] + open[1..]
  }

  lemma Unpush(open: seq<seq<Decl>>)
    requires open != [] && BindingsOf(open[0]) != []
    ensures open[0] != [] && open == Push(open[0][0], [open[0][1..]] + open[1..])
  {
    assert open[0] == [open[0][0]] + open[0][1..];
  }

  lemma PushFlat(d: Decl, open: seq<seq<Decl>>)
    requires open != []
    ensures Flat(Push(d, open)) == [d] + Flat(open)
    ensures BindingsOf(Flat(Push(d, open))) == [d.binding] + BindingsOf(Flat(open))
    ensures TagLists(Push(d, open)) == [[d.binding] + TagLists(open)[0]] + TagLists(open)[1..]
  {
    assert Push(d, open)[1..] == open[1..];
    assert ([d] + open[0]) + Flat(open[1..]) == [d] + (open[0] + Flat(open[1..]));
    assert ([d] + Flat(open))[1..] == Flat(open);
    assert ([d] + open[0])[1..] == open[0];
  }

  lemma OpenTags(open: seq<seq<Decl>>)
    ensures TagLists(open) == [] <==> open == []
  {
  }

  lemma PopTags(d: Decl, open: seq<seq<Decl>>)
    requires open != []
    ensures var tags := TagLists(Push(d, open));
      && tags != [] && tags[0] != [] && tags[0][0] == d.binding && [tags[0][1..]] + tags[1..] == TagLists(open)
  {
    PushFlat(d, open);
    var lists := TagLists(open);
    assert ([d.binding] + lists[0])[1..] == lists[0];
    assert [lists[0]] + lists[1..] == lists;
  }

  lemma PushSeparate(d: Decl, open: seq<seq<Decl>>, free: seq<Binding>, repr: set<Binding>)
    requires open != [] && Separate(open, free, repr)
    requires d.binding in repr && d.binding !in free && d.binding !in BindingsOf(Flat(open))
    ensures Separate(Push(d, open), free, repr)
  {
    PushFlat(d, open);
    NewDistinct(BindingsOf(Flat(open)), free, d.binding);
  }

  lemma PopSeparate(d: Decl, open: seq<seq<Decl>>, free: seq<Binding>, repr: set<Binding>)
    requires open != [] && Separate(Push(d, open), free, repr) && d.binding in repr
    ensures Separate(open, [d.binding] + free, repr) && d.binding !in BindingsOf(Flat(open)) && d.binding !in free
    ensures forall e :: e in Flat(open) ==> e in Flat(Push(d, open))
  {
    PushFlat(d, open);
    assert forall e :: e in Flat(open) ==> e in [d] + Flat(open);
    var bs := BindingsOf(Flat(Push(d, open)));
    assert bs[1..] == BindingsOf(Flat(open));
    ShiftDistinct(free, bs);
  }

  lemma {:induction false} InBindings(ds: seq<Decl>, b: Binding)
    ensures b in BindingsOf(ds) <==> exists k :: 0 <= k < |ds| && ds[k].binding == b
  {
    if ds != [] {
      InBindings(ds[1..], b);
      assert ds == [ds[0]] + ds[1..];
      if k :| 0 <= k < |ds| && ds[k].binding == b && k > 0 {
        assert ds[1..][k - 1].binding == b;
      }
    }
  }

  /** The constraints of section 3 of Namespaces in XML 1.0 on a declaration. */
  predicate Legal(name: Option<string>, uri: string) {
    && (uri == "" ==> name.None?)
    && name != Some("xmlns")
    && (name == Some("xml") <==> uri == XML_NAMESPACE)
    && uri != XMLNS_NAMESPACE
  }

  /** A character of a string that a NUL ends. */
  function At(s: string, i: nat): char {
    if i < |s| then s[i] else '\0'
  }

  lemma Terminator(s: string, i: nat)
    requires '\0' !in s
    ensures At(s, i) == '\0' <==> i >= |s|
  {
    if i < |s| {
      assert s[i] in s;
    }
  }

  /** A string that spells another up to its terminator is that string. */
  lemma Spelled(n: string, s: string)
    requires '\0' !in n && '\0' !in s
    ensures n == s <==> forall i :: 0 <= i <= |s| ==> At(n, i) == At(s, i)
  {
    if forall i :: 0 <= i <= |s| ==> At(n, i) == At(s, i) {
      Terminator(n, |s|);
      Terminator(s, |s|);
      Terminator(s, |n|);
      assert At(n, |s|) == At(s, |s|) && (|n| <= |s| ==> At(n, |n|) == At(s, |n|));
      forall i | 0 <= i < |s|
        ensures n[i] == s[i]
      {
        assert At(n, i) == At(s, i);
      }
      assert n == s;
    }
  }

  /** The comparison of a name with the two reserved ones, in one pass. */
  method Compare(uri: string, xml: string, xmlns: string, mustBeXml: bool) returns (isXml: bool, isXmlns: bool)
    requires |xml| != |xmlns| && '\0' !in uri
    ensures isXml == (uri == xml)
    ensures !mustBeXml || isXml ==> isXmlns == (uri == xmlns)
  {
    isXml, isXmlns := true, true;
    var len := 0;
    while len < |uri|
      invariant len <= |uri|
      invariant isXml <==> len <= |xml| && uri[..len] == xml[..len]
      invariant if mustBeXml then isXmlns else isXmlns <==> len <= |xmlns| && uri[..len] == xmlns[..len]
    {
      if isXml && (len > |xml| || uri[len] != At(xml, len)) {
        isXml := false;
      }
      if !mustBeXml && isXmlns && (len > |xmlns| || uri[len] != At(xmlns, len)) {
        isXmlns := false;
      }
      len := len + 1;
    }
    isXml := isXml && len == |xml|;
    isXmlns := isXmlns && len == |xmlns|;
  }

  /** The checks of `addBinding`: a declaration passes them exactly when it is legal. */
  method Check(name: Option<string>, uri: string) returns (error: XmlError)
    requires '\0' !in uri && (name.Some? ==> '\0' !in name.value)
    ensures error == NoError <==> Legal(name, uri)
    ensures error == UndeclaringPrefix <==> uri == "" && name.Some?
    ensures error == ReservedPrefixXmlns <==> uri != "" && name == Some("xmlns")
    ensures error == ReservedPrefixXml <==> uri != "" && name == Some("xml") && uri != XML_NAMESPACE
    ensures error == ReservedNamespaceUri <==>
              name != Some("xmlns") && (uri == XMLNS_NAMESPACE || uri == XML_NAMESPACE) && name != Some("xml")
    ensures error != NoMemory && error != AsyncEntity
  {
    if uri == "" && name.Some? {
      return UndeclaringPrefix;
    }
    var mustBeXml := false;
    if name.Some? {
      var n := name.value;
      Spelled(n, "xml");
      Spelled(n, "xmlns");
      if At(n, 0) == 'x' && At(n, 1) == 'm' && At(n, 2) == 'l' {
        if At(n, 3) == 'n' && At(n, 4) == 's' && At(n, 5) == '\0' {
          return ReservedPrefixXmlns;
        }
        if At(n, 3) == '\0' {
          mustBeXml := true;
        }
      }
    }
    assert mustBeXml <==> name == Some("xml");
    assert name != Some("xmlns");
    var isXml, isXmlns := Compare(uri, XML_NAMESPACE, XMLNS_NAMESPACE, mustBeXml);
    if mustBeXml != isXml {
      return if mustBeXml then ReservedPrefixXml else ReservedNamespaceUri;
    }
    if isXmlns {
      return ReservedNamespaceUri;
    }
    return NoError;
  }

  /** Every prefix is bound by its innermost declaration. */
  ghost predicate Bound(ds: seq<Decl>, separator: Option<char>, prefixes: set<Prefix>)
    reads (set d | d in ds :: d.binding)`prefix, (set d | d in ds :: d.binding)`uri, (set d | d in ds :: d.binding)`prevPrefixBinding
    reads prefixes
  {
    Backed(ds, separator) && forall p :: p in prefixes ==> p.binding == Current(ds, p)
  }

  /** A declaration as a start tag spells it. */
  datatype Name = Name(prefix: Prefix, uri: string) {
    /** Its strings are ended by their terminators. */
    predicate Terminated() {
      '\0' !in uri && (prefix.name.Some? ==> '\0' !in prefix.name.value)
    }
  }

  /** The prefixes are those of the parser. */
  ghost predicate Known(names: seq<Name>, prefixes: set<Prefix>) {
    forall k :: 0 <= k < |names| ==> names[k].prefix in prefixes && names[k].Terminated()
  }

  predicate AllLegal(names: seq<Name>) {
    names == [] || (Legal(names[0].prefix.name, names[0].uri) && AllLegal(names[1..]))
  }

  /** The tags of some content. */
  datatype Event = Start(names: seq<Name>) | End

  /** The declarations in scope after a tag, and after a run of tags. */
  function Next(stack: seq<seq<Name>>, event: Event): seq<seq<Name>> {
    match event {
      case Start(names) => Declared([[]] + stack, names)
      case End => if stack == [] then [] else stack[1..]
    }
  }

  function Runs(stack: seq<seq<Name>>, events: seq<Event>): seq<seq<Name>>
    decreases events
  {
    if events == [] then stack else Runs(Next(stack, events[0]), events[1..])
  }

  /** How many elements are open after a run of tags; None if one ends that was not started in it. */
  function Depth(depth: nat, events: seq<Event>): Option<nat>
    decreases events
  {
    if events == [] then Some(depth)
    else if events[0].Start? then Depth(depth + 1, events[1..])
    else if depth == 0 then None
    else Depth(depth - 1, events[1..])
  }

  lemma RunStep(stack: seq<seq<Name>>, depth: nat, events: seq<Event>, k: nat)
    requires k < |events|
    ensures Runs(stack, events[k..]) == Runs(Next(stack, events[k]), events[k + 1..])
    ensures events[k].Start? ==> Depth(depth, events[k..]) == Depth(depth + 1, events[k + 1..])
    ensures events[k].End? && depth > 0 ==> Depth(depth, events[k..]) == Depth(depth - 1, events[k + 1..])
    ensures events[k].End? && depth == 0 ==> Depth(depth, events[k..]) == None
  {
    assert events[k..][0] == events[k] && events[k..][1..] == events[k + 1..];
  }

  /** After the last tag. */
  lemma RunEnds(stack: seq<seq<Name>>, depth: nat, events: seq<Event>)
    ensures Runs(stack, events[|events|..]) == stack && Depth(depth, events[|events|..]) == Some(depth)
  {
  }

  lemma DropDrop<T>(s: seq<T>, i: nat, j: nat)
    requires i + j <= |s|
    ensures s[i..][j..] == s[i + j..]
  {
  }

  /** The declarations of all open elements. */
  function AllNames(open: seq<seq<Decl>>): (r: seq<seq<Name>>)
    ensures |r| == |open|
  {
    if open == [] then [] else [Names(open[0])] + AllNames(open[1..])
  }

  function Names(ds: seq<Decl>): seq<Name> {
    if ds == [] then [] else [Name(ds[0].prefix, ds[0].uri)] + Names(ds[1..])
  }

  /** A start tag adds its declarations, in order, to those of the innermost element. */
  function Declared(stack: seq<seq<Name>>, names: seq<Name>): (r: seq<seq<Name>>)
    requires stack != []
    ensures r != []
    decreases names
  {
    if names == [] then stack else Declared([[names[0]] + stack[0]] + stack[1..], names[1..])
  }

  lemma {:induction false} DeclaredAbove(stack: seq<seq<Name>>, names: seq<Name>)
    requires stack != []
    ensures Declared(stack, names)[1..] == stack[1..]
    decreases names
  {
    if names != [] {
      DeclaredAbove([[names[0]] + stack[0]] + stack[1..], names[1..]);
    }
  }

  /** A run that ends every element it starts, and ends `inner` too, leaves the declarations around them in scope. */
  lemma {:induction false} NestedRunRestores(inner: seq<seq<Name>>, outer: seq<seq<Name>>, events: seq<Event>)
    requires Depth(|inner|, events) == Some(0)
    ensures Runs(inner + outer, events) == outer
    decreases events
  {
    if events == [] {
      assert inner + outer == outer;
    } else if events[0].Start? {
      var stack := Declared([[]] + (inner + outer), events[0].names);
      DeclaredAbove([[]] + (inner + outer), events[0].names);
      assert stack == [stack[0]] + inner + outer;
      NestedRunRestores([stack[0]] + inner, outer, events[1..]);
    } else {
      assert (inner + outer)[1..] == inner[1..] + outer;
      NestedRunRestores(inner[1..], outer, events[1..]);
    }
  }

  lemma DeclareStep(stack: seq<seq<Name>>, names: seq<Name>, k: nat)
    requires stack != [] && k < |names|
    ensures Declared(stack, names[k..]) == Declared([[names[k]] + stack[0]] + stack[1..], names[k + 1..])
    ensures AllLegal(names[k..]) <==> Legal(names[k].prefix.name, names[k].uri) && AllLegal(names[k + 1..])
  {
    assert names[k..][0] == names[k] && names[k..][1..] == names[k + 1..];
  }

  lemma NamesOfOpened(open: seq<seq<Decl>>)
    ensures ([[]] + open)[1..] == open && AllNames([[]] + open) == [[]] + AllNames(open)
  {
  }

  lemma NamesOfPushed(d: Decl, open: seq<seq<Decl>>)
    requires open != []
    ensures AllNames(Push(d, open)) == [[Name(d.prefix, d.uri)] + AllNames(open)[0]] + AllNames(open)[1..]
  {
    assert ([d] + open[0])[1..] == open[0];
    assert Push(d, open)[1..] == open[1..];
  }

  /** What a prefix means: the innermost element that declares it says so; the empty name takes a meaning away. */
  function Meaning(stack: seq<seq<Name>>, p: Prefix): Option<string> {
    if stack == [] then None
    else match LastName(stack[0], p) {
      case None => Meaning(stack[1..], p)
      case Some(uri) => if uri == "" then None else Some(uri)
    }
  }

  function LastName(names: seq<Name>, p: Prefix): Option<string> {
    if names == [] then None else if names[0].prefix == p then Some(names[0].uri) else LastName(names[1..], p)
  }

  /** Looking through the elements is looking through all declarations. */
  lemma {:induction false} MeaningOfFlat(open: seq<seq<Decl>>, p: Prefix)
    ensures var d := Innermost(Flat(open), p);
            Meaning(AllNames(open), p) == if d.None? || d.value.uri == "" then None else Some(d.value.uri)
  {
    if open != [] {
      MeaningOfFlat(open[1..], p);
      InnermostOfTwo(open[0], Flat(open[1..]), p);
    }
  }

  lemma {:induction false} InnermostOfTwo(ds: seq<Decl>, more: seq<Decl>, p: Prefix)
    ensures Innermost(ds + more, p) == if Innermost(ds, p).Some? then Innermost(ds, p) else Innermost(more, p)
    ensures LastName(Names(ds), p) == if Innermost(ds, p).Some? then Some(Innermost(ds, p).value.uri) else None
  {
    if ds == [] {
      assert ds + more == more;
    } else {
      InnermostOfTwo(ds[1..], more, p);
      FrontOfJoin(ds, more);
    }
  }

  lemma {:induction false} StoredAsDeclared(ds: seq<Decl>, separator: Option<char>, p: Prefix)
    requires Backed(ds, separator) && Innermost(ds, p).Some?
    ensures var d := Innermost(ds, p).value; d.binding.uri == Stored(d.uri, separator)
  {
    if ds[0].prefix != p {
      StoredAsDeclared(ds[1..], separator, p);
    }
  }

  /** The fields of a binding, when a declaration comes on top of others. */
  method Fill(b: Binding, prefix: Prefix, uri: string, separator: Option<char>, ghost ds: seq<Decl>)
    requires Backed(ds, separator) && prefix.binding == Current(ds, prefix)
    requires forall d :: d in ds ==> d.binding != b
    modifies b`uri, b`prefix, b`prevPrefixBinding
    ensures Backed([Decl(prefix, uri, b)] + ds, separator) && b.uri == Stored(uri, separator)
  {
    b.uri := Stored(uri, separator);
    b.prefix := prefix;
    b.prevPrefixBinding := prefix.binding;
    assert ([Decl(prefix, uri, b)] + ds)[1..] == ds;
  }

  /** The end of `addBinding`: the new binding becomes the innermost one of its prefix. */
  method Cover(b: Binding, prefix: Prefix, uri: string, separator: Option<char>, ghost ds: seq<Decl>, ghost prefixes: set<Prefix>)
    requires Bound(ds, separator, prefixes) && prefix in prefixes && b !in BindingsOf(ds)
    modifies b`uri, b`prefix, b`prevPrefixBinding, prefix
    ensures Bound([Decl(prefix, uri, b)] + ds, separator, prefixes) && b.uri == Stored(uri, separator)
  {
    InBindings(ds, b);
    Fill(b, prefix, uri, separator, ds);
    prefix.binding := if uri == "" then null else b;
    assert ([Decl(prefix, uri, b)] + ds)[1..] == ds;
  }

  /** One round of the loop at the end of an element: the binding that was hidden is back. */
  method Uncover(b: Binding, separator: Option<char>, ghost d: Decl, ghost ds: seq<Decl>, ghost prefixes: set<Prefix>)
    requires Bound([d] + ds, separator, prefixes) && b == d.binding && d.prefix in prefixes
    modifies d.prefix
    ensures Bound(ds, separator, prefixes)
  {
    assert ([d] + ds)[1..] == ds;
    b.prefix.binding := b.prevPrefixBinding;
  }

  /** The part of a parser that knows what is in scope. */
  class Scopes {
    const separator: Option<char>
    const defaultPrefix: Prefix
    var freeBindingList: seq<Binding>
    /** The lists of bindings of the open elements, innermost first; the last one is the inherited list. */
    var tags: seq<seq<Binding>>
    ghost var open: seq<seq<Decl>>
    ghost var prefixes: set<Prefix>
    ghost var repr: set<Binding>

    /** The declarations in scope, newest first. */
    ghost function Scope(): seq<Decl>
      reads this
    {
      Flat(open)
    }

    ghost predicate Linked()
      reads this
    {
      && tags == TagLists(open)
      && Separate(open, freeBindingList, repr)
      && (forall d :: d in Scope() ==> d.binding in repr && d.prefix in prefixes)
    }

    /** The stored names fit their buffers. */
    ghost predicate Buffers()
      reads this, repr
    {
      forall b :: b in repr ==> |b.uri| <= b.uriAlloc
    }

    /** Only the default prefix has no name. */
    ghost predicate Named()
      reads this
    {
      forall p :: p in prefixes ==> (p.name.None? <==> p == defaultPrefix)
    }

    ghost predicate Valid()
      reads this, repr, prefixes
    {
      Linked() && Buffers() && Bound(Scope(), separator, prefixes) && Named()
    }

    constructor (separator: Option<char>, defaultPrefix: Prefix)
      requires defaultPrefix.name == None && defaultPrefix.binding == null
      ensures Valid() && open == [[]] && prefixes == {defaultPrefix} && fresh(repr)
    {
      this.separator, this.defaultPrefix := separator, defaultPrefix;
      freeBindingList, tags := [], [[]];
      open, prefixes, repr := [[]], {defaultPrefix}, {};
    }

    /** A prefix that is new to the table of prefixes is not bound. */
    method AddPrefix(name: string) returns (p: Prefix)
      requires Valid()
      modifies this`prefixes
      ensures Valid() && fresh(p) && p.name == Some(name) && prefixes == old(prefixes) + {p}
    {
      p := new Prefix(Some(name));
      NotDeclared(Scope(), p);
      prefixes := prefixes + {p};
    }

    /** The first free binding, which may need a bigger buffer. */
    method Recycle(len: nat, mallocUri: bool) returns (b: Binding?)
      requires Valid() && freeBindingList != []
      modifies this`freeBindingList, repr`uriAlloc
      ensures Valid()
      ensures b != null ==> b in repr && b !in freeBindingList && b !in BindingsOf(Scope()) && len <= b.uriAlloc
      ensures b == null ==> freeBindingList == old(freeBindingList) && !mallocUri
    {
      hide Current, Innermost, Flat;
      b := freeBindingList[0];
      if len > b.uriAlloc {
        if !mallocUri {
          return null;
        }
        b.uriAlloc := len + EXPAND_SPARE;
      }
      ShiftDistinct(BindingsOf(Scope()), freeBindingList);
      freeBindingList := freeBindingList[1..];
    }

    /** A new binding. */
    method Allocate(len: nat) returns (b: Binding)
      requires Valid()
      modifies this`repr
      ensures Valid() && fresh(repr - old(repr)) && fresh(b)
      ensures b in repr && b !in freeBindingList && b !in BindingsOf(Scope()) && len <= b.uriAlloc
    {
      b := new Binding(len + EXPAND_SPARE);
      InBindings(Scope(), b);
      repr := repr + {b};
    }

    /** The new binding goes to the front of the list of its element. */
    method Enlist(b: Binding, ghost d: Decl)
      requires Linked() && Buffers() && Named() && tags != []
      requires b == d.binding && b in repr && b !in freeBindingList && b !in BindingsOf(Scope()) && d.prefix in prefixes
      requires Bound([d] + Scope(), separator, prefixes)
      modifies this`tags, this`open
      ensures Valid() && open == Push(d, old(open))
    {
      hide Current, Innermost, TagLists, BindingsOf, Flat, Push;
      ghost var under := open;
      OpenTags(open);
      PushFlat(d, under);
      PushSeparate(d, under, freeBindingList, repr);
      tags, open := [[b] + tags[0]] + tags[1..], Push(d, under);
    }

    /** The end of `addBinding`. */
    method Bind(b: Binding, prefix: Prefix, uri: string)
      requires Valid() && tags != [] && prefix in prefixes
      requires b in repr && b !in freeBindingList && b !in BindingsOf(Scope()) && |Stored(uri, separator)| <= b.uriAlloc
      modifies this`tags, this`open, b`uri, b`prefix, b`prevPrefixBinding, prefix
      ensures Valid() && open == Push(Decl(prefix, uri, b), old(open))
    {
      Cover(b, prefix, uri, separator, Scope(), prefixes);
      Enlist(b, Decl(prefix, uri, b));
    }

    /** One round of the loop at the end of an element: the newest binding is freed. */
    method Unbind(ghost d: Decl, ghost rest: seq<seq<Decl>>)
      requires Valid() && rest != [] && open == Push(d, rest)
      modifies this`tags, this`open, this`freeBindingList, d.prefix
      ensures Valid() && open == rest
      ensures tags == [old(tags)[0][1..]] + old(tags)[1..] && freeBindingList == [old(tags)[0][0]] + old(freeBindingList)
    {
      hide Current, Innermost, TagLists, BindingsOf, Push;
      PushFlat(d, rest);
      PopTags(d, rest);
      assert Scope()[0] == d;
      PopSeparate(d, rest, freeBindingList, repr);
      var b := tags[0][0];
      Uncover(b, separator, d, Flat(rest), prefixes);
      tags, freeBindingList := [tags[0][1..]] + tags[1..], [b] + freeBindingList;
      open := rest;
    }

    /** The second half of `addBinding`. */
    method Declare(prefix: Prefix, uri: string, mallocBinding: bool, mallocUri: bool) returns (ok: bool)
      requires Valid() && tags != [] && prefix in prefixes
      modifies this`freeBindingList, this`tags, this`open, this`repr, repr, prefix
      ensures Valid() && fresh(repr - old(repr))
      ensures ok ==> tags != [] && tags[0] != [] && open == Push(Decl(prefix, uri, tags[0][0]), old(open))
      ensures !ok ==> !(mallocBinding && mallocUri) && open == old(open) && tags == old(tags)
    {
      var len := |uri| + if separator.Some? then 1 else 0;
      var b: Binding?;
      if freeBindingList != [] {
        b := Recycle(len, mallocUri);
        if b == null {
          return false;
        }
      } else {
        if !mallocBinding || !mallocUri {
          return false;
        }
        b := Allocate(len);
      }
      Bind(b, prefix, uri);
      PushFlat(Decl(prefix, uri, b), old(open));
      return true;
    }

    /**
     * `addBinding`: a legal declaration is bound on top of the others, if memory allows; nothing changes in scope
     * otherwise.
     */
    method AddBinding(prefix: Prefix, uri: string, mallocBinding: bool, mallocUri: bool) returns (error: XmlError)
      requires Valid() && tags != [] && prefix in prefixes
      requires '\0' !in uri && (prefix.name.Some? ==> '\0' !in prefix.name.value)
      modifies this`freeBindingList, this`tags, this`open, this`repr, repr, prefix
      ensures Valid() && fresh(repr - old(repr))
      ensures !Legal(prefix.name, uri) <==> error in {UndeclaringPrefix, ReservedPrefixXml, ReservedPrefixXmlns, ReservedNamespaceUri}
      ensures error == NoMemory ==> !(mallocBinding && mallocUri)
      ensures error == NoError ==> tags != [] && tags[0] != [] && open == Push(Decl(prefix, uri, tags[0][0]), old(open))
      ensures error != NoError ==> open == old(open) && tags == old(tags)
    {
      error := Check(prefix.name, uri);
      if error != NoError {
        return;
      }
      var ok := Declare(prefix, uri, mallocBinding, mallocUri);
      return if ok then NoError else NoMemory;
    }

    /** A start tag opens an element without bindings. */
    method OpenElement()
      requires Valid()
      modifies this`tags, this`open
      ensures Valid() && open == [[]] + old(open)
    {
      var under := open;
      tags, open := [[]] + tags, [[]] + under;
      assert open[1..] == under;
      assert Scope() == Flat(under);
    }

    /** An end tag: the bindings of the element are freed one by one. */
    method CloseElement()
      requires Valid() && tags != []
      modifies this`tags, this`open, this`freeBindingList, prefixes
      ensures Valid() && open == old(open)[1..] && tags == old(tags)[1..]
      ensures freeBindingList == Reversed(old(tags)[0]) + old(freeBindingList)
    {
      ghost var freed := Reversed(tags[0]) + freeBindingList;
      while tags[0] != []
        invariant Valid() && open != [] && open[1..] == old(open)[1..]
        invariant tags != [] && tags[1..] == old(tags)[1..]
        invariant Reversed(tags[0]) + freeBindingList == freed
        decreases |open[0]|
      {
        Assoc(Reversed(tags[0][1..]), [tags[0][0]], freeBindingList);
        Unpush(open);
        Unbind(open[0][0], [open[0][1..]] + open[1..]);
      }
      assert [] + freeBindingList == freeBindingList;
      DropElement();
    }

    method DropElement()
      requires Valid() && tags != [] && tags[0] == []
      modifies this`tags, this`open
      ensures Valid() && open == old(open)[1..] && tags == old(tags)[1..]
    {
      ghost var rest := open[1..];
      assert open[0] == [];
      assert Scope() == Flat(rest);
      tags, open := tags[1..], rest;
    }

    /** What the innermost declarations say is what the prefixes are bound to. */
    lemma BoundAsDeclared(p: Prefix)
      requires Valid() && p in prefixes
      ensures p.binding == null <==> Meaning(AllNames(open), p).None?
      ensures p.binding != null ==>
                p.binding.uri == Meaning(AllNames(open), p).value + if separator.None? then "" else [separator.value]
    {
      MeaningOfFlat(open, p);
      if Innermost(Scope(), p).Some? {
        StoredAsDeclared(Scope(), separator, p);
      }
    }

    /** One declaration of a start tag. */
    method DeclareName(name: Name, malloc: bool) returns (error: XmlError)
      requires Valid() && open != [] && name.prefix in prefixes && name.Terminated()
      modifies this`freeBindingList, this`tags, this`open, this`repr, repr, name.prefix
      ensures Valid() && fresh(repr - old(repr)) && open != [] && open[1..] == old(open)[1..]
      ensures error == NoError ==> AllNames(open) == [[name] + AllNames(old(open))[0]] + AllNames(old(open))[1..]
      ensures error == NoError ==> Legal(name.prefix.name, name.uri)
    {
      error := AddBinding(name.prefix, name.uri, malloc, malloc);
      if error == NoError {
        NamesOfPushed(open[0][0], old(open));
      }
    }

    /** The declarations of a start tag, in order; the first one that fails ends the parse. */
    method StartTag(names: seq<Name>, malloc: nat -> bool) returns (error: XmlError)
      requires Valid()
      requires Known(names, prefixes)
      modifies this`freeBindingList, this`tags, this`open, this`repr, repr, prefixes
      ensures Valid() && fresh(repr - old(repr))
      ensures open != [] && open[1..] == old(open)
      ensures error == NoError ==> AllNames(open) == Declared([[]] + AllNames(old(open)), names)
      ensures error == NoError ==> AllLegal(names)
    {
      OpenElement();
      NamesOfOpened(old(open));
      error := DeclareNames(names, malloc);
    }

    /** The declarations of a start tag, one by one. */
    method DeclareNames(names: seq<Name>, malloc: nat -> bool) returns (error: XmlError)
      requires Valid() && open != [] && Known(names, prefixes)
      modifies this`freeBindingList, this`tags, this`open, this`repr, repr, prefixes
      ensures Valid() && fresh(repr - old(repr)) && open != [] && open[1..] == old(open)[1..]
      ensures error == NoError ==> AllNames(open) == Declared(AllNames(old(open)), names) && AllLegal(names)
    {
      hide Current, Flat;
      var k := 0;
      while k < |names|
        invariant k <= |names| && Valid() && fresh(repr - old(repr))
        invariant open != [] && open[1..] == old(open)[1..]
        invariant Declared(AllNames(open), names[k..]) == Declared(AllNames(old(open)), names)
        invariant AllLegal(names[k..]) ==> AllLegal(names)
      {
        DeclareStep(AllNames(open), names, k);
        error := DeclareName(names[k], malloc(k));
        if error != NoError {
          return;
        }
        k := k + 1;
      }
      return NoError;
    }

    /** One tag, `depth` elements above the ones that were open before. */
    method Tag(event: Event, depth: nat, ghost base: seq<seq<Decl>>, malloc: nat -> bool) returns (error: XmlError, depth': nat)
      requires Valid() && (event.Start? ==> Known(event.names, prefixes))
      requires |open| == depth + |base| && open[depth..] == base
      modifies this`freeBindingList, this`tags, this`open, this`repr, repr, prefixes
      ensures Valid() && fresh(repr - old(repr))
      ensures error == NoError ==> AllNames(open) == Next(AllNames(old(open)), event) && |open| == depth' + |base| && open[depth'..] == base
      ensures error == NoError ==> if event.Start? then depth' == depth + 1 else depth > 0 && depth' == depth - 1
    {
      if event.Start? {
        depth' := depth + 1;
        error := StartTag(event.names, malloc);
        DropDrop(open, 1, depth);
      } else if depth == 0 {
        return AsyncEntity, 0;
      } else {
        depth' := depth - 1;
        DropDrop(open, 1, depth');
        CloseElement();
        error := NoError;
      }
    }

    /**
     * The tags of some content, as long as no error ends it. After a well-nested run everything is bound as it was
     * before.
     */
    method Content(events: seq<Event>, malloc: (nat, nat) -> bool) returns (error: XmlError)
      requires Valid() && forall k :: 0 <= k < |events| && events[k].Start? ==> Known(events[k].names, prefixes)
      modifies this`freeBindingList, this`tags, this`open, this`repr, repr, prefixes
      ensures Valid()
      ensures error == NoError ==> AllNames(open) == Runs(AllNames(old(open)), events)
      ensures error == NoError && Depth(0, events) == Some(0) ==> open == old(open)
      ensures error == NoError && Depth(0, events) == Some(0) ==> forall p :: p in prefixes ==> p.binding == old(p.binding)
      ensures Depth(0, events) == None ==> error != NoError
    {
      hide Current, Flat, Next, Declared, Innermost, AllNames, TagLists, BindingsOf, Runs, Depth;
      var depth: nat, k: nat := 0, 0;
      ghost var before, target := open, Runs(AllNames(open), events);
      assert events[0..] == events;
      while k < |events|
        invariant k <= |events| && Valid() && fresh(repr - old(repr))
        invariant |open| == depth + |before| && open[depth..] == before
        invariant Depth(depth, events[k..]) == Depth(0, events)
        invariant Runs(AllNames(open), events[k..]) == target
      {
        RunStep(AllNames(open), depth, events, k);
        error, depth := Tag(events[k], depth, before, (n: nat) => malloc(k, n));
        if error != NoError {
          return;
        }
        k := k + 1;
      }
      RunEnds(AllNames(open), depth, events);
      return NoError;
    }
  }
}
