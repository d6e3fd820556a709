/** The TAF writer, the TAF reader and the groups it builds. */
module Taf {
  import opened Bytes
  import opened TafSyntax
  import opened Wrappers

  // ---- Groups ----

  /** The values of the properties named `k`, in document order. */
  function PropertiesNamed(ns: seq<Node>, k: seq<byte>): seq<seq<byte>>
  {
    if ns == [] then []
    else
      var n := ns[|ns| - 1];
      PropertiesNamed(ns[..|ns| - 1], k) + (if n.Property? && n.name == k then [n.value] else [])
  }

  /** The groups named `k`, in document order. */
  function GroupsNamed(ns: seq<Node>, k: seq<byte>): (gs: seq<Node>)
    ensures forall i :: 0 <= i < |gs| ==> gs[i].Group?
  {
    if ns == [] then []
    else
      var n := ns[|ns| - 1];
      GroupsNamed(ns[..|ns| - 1], k) + (if n.Group? && n.name == k then [n] else [])
  }

  /** Child `i` is the first group named `k`. */
  ghost predicate FirstGroup(ns: seq<Node>, k: seq<byte>, i: nat)
  {
    && i < |ns| && ns[i].Group? && ns[i].name == k
    && forall j :: 0 <= j < i ==> !(ns[j].Group? && ns[j].name == k)
  }

  /** Child `i` is the first property named `k`. */
  ghost predicate FirstProperty(ns: seq<Node>, k: seq<byte>, i: nat)
  {
    && i < |ns| && ns[i].Property? && ns[i].name == k
    && forall j :: 0 <= j < i ==> !(ns[j].Property? && ns[j].name == k)
  }

  /** The index lists a group first exactly when it comes first. */
  lemma {:induction false} FirstOfGroups(ns: seq<Node>, k: seq<byte>) returns (i: nat)
    ensures if GroupsNamed(ns, k) == [] then i == |ns| else FirstGroup(ns, k, i) && ns[i] == GroupsNamed(ns, k)[0]
    ensures forall j :: 0 <= j < i && j < |ns| ==> !(ns[j].Group? && ns[j].name == k)
  {
    i := 0;
    if ns != [] {
      var m := |ns| - 1;
      i := FirstOfGroups(ns[..m], k);
      if i == m && !(ns[m].Group? && ns[m].name == k) {
        i := m + 1;
      }
    }
  }

  lemma {:induction false} FirstOfProperties(ns: seq<Node>, k: seq<byte>) returns (i: nat)
    ensures if PropertiesNamed(ns, k) == [] then i == |ns|
            else FirstProperty(ns, k, i) && ns[i].value == PropertiesNamed(ns, k)[0]
    ensures forall j :: 0 <= j < i && j < |ns| ==> !(ns[j].Property? && ns[j].name == k)
  {
    i := 0;
    if ns != [] {
      var m := |ns| - 1;
      i := FirstOfProperties(ns[..m], k);
      if i == m && !(ns[m].Property? && ns[m].name == k) {
        i := m + 1;
      }
    }
  }

  lemma NamedMore(ns: seq<Node>, n: Node)
    ensures forall k :: GroupsNamed(ns + [n], k) == GroupsNamed(ns, k) + (if n.Group? && n.name == k then [n] else [])
    ensures forall k :: PropertiesNamed(ns + [n], k)
                     == PropertiesNamed(ns, k) + (if n.Property? && n.name == k then [n.value] else [])
  {
    assert (ns + [n])[..|ns|] == ns;
  }

  datatype LookupError = NoSuchChild | NoSuchProperty

  /** A group: its children in document order, and two indexes of them by name. */
  class TafGroup {
    var name: seq<byte>
    var props: map<seq<byte>, seq<seq<byte>>>
    var groups: map<seq<byte>, seq<Node>>
    var children: seq<Node>

    constructor (name: seq<byte>)
      ensures Valid() && this.name == name && children == []
    {
      this.name := name;
      props, groups, children := map[], map[], [];
    }

    /** A copy of a group, built by adding its children one after the other. */
    constructor Copy(g: Node)
      requires g.Group?
      ensures Valid() && Tree() == g
    {
      name := g.name;
      props, groups, children := map[], map[], [];
      new;
      for i := 0 to |g.children|
        invariant Valid() && name == g.name && children == g.children[..i]
      {
        AddChild(g.children[i]);
      }
      assert g.children[..|g.children|] == g.children;
    }

    /** The indexes list exactly the children, in document order. */
    ghost predicate Valid()
      reads this
    {
      && (forall k :: k in props <==> PropertiesNamed(children, k) != [])
      && (forall k :: k in props ==> props[k] == PropertiesNamed(children, k))
      && (forall k :: k in groups <==> GroupsNamed(children, k) != [])
      && (forall k :: k in groups ==> groups[k] == GroupsNamed(children, k))
    }

    /** The tree the group is the root of. */
    function Tree(): Node
      reads this
    {
      Group(name, children)
    }

    method AddChild(n: Node)
      requires Valid()
      modifies `props, `groups, `children
      ensures Valid() && children == old(children) + [n]
    {
      match n {
        case Group(_, _) =>
          AddGroup(n);
        case Property(_, _) =>
          AddProperty(n);
        case Comment(_, _) =>
          AddComment(n);
      }
    }

    method AddGroup(n: Node)
      requires Valid() && n.Group?
      modifies `groups, `children
      ensures Valid() && children == old(children) + [n]
    {
      hide GroupsNamed, PropertiesNamed;
      NamedMore(children, n);
      if n.name !in groups {
        groups := groups[n.name := []];
      }
      groups := groups[n.name := groups[n.name] + [n]];
      children := children + [n];
    }

    method AddProperty(n: Node)
      requires Valid() && n.Property?
      modifies `props, `children
      ensures Valid() && children == old(children) + [n]
    {
      hide GroupsNamed, PropertiesNamed;
      NamedMore(children, n);
      if n.name !in props {
        props := props[n.name := []];
      }
      props := props[n.name := props[n.name] + [n.value]];
      children := children + [n];
    }

    method AddComment(n: Node)
      requires Valid() && n.Comment?
      modifies `children
      ensures Valid() && children == old(children) + [n]
    {
      hide GroupsNamed, PropertiesNamed;
      NamedMore(children, n);
      children := children + [n];
    }

    method HasChild(k: seq<byte>) returns (has: bool)
      requires Valid()
      ensures has <==> exists i :: 0 <= i < |children| && children[i].Group? && children[i].name == k
    {
      ghost var i := FirstOfGroups(children, k);
      has := k in groups;
    }

    /** The first group of that name in document order. */
    method GetChild(k: seq<byte>) returns (r: Result<Node, LookupError>)
      requires Valid()
      ensures r.Ok? <==> exists i :: 0 <= i < |children| && children[i].Group? && children[i].name == k
      ensures r.Ok? ==> exists i: nat :: FirstGroup(children, k, i) && r.value == children[i]
      ensures r.Err? ==> r.error == NoSuchChild
    {
      ghost var i := FirstOfGroups(children, k);
      r := if k in groups then Ok(groups[k][0]) else Err(NoSuchChild);
    }

    method GetChildren(k: seq<byte>) returns (r: Result<seq<Node>, LookupError>)
      requires Valid()
      ensures r == if GroupsNamed(children, k) != [] then Ok(GroupsNamed(children, k)) else Err(NoSuchChild)
    {
      r := if k in groups then Ok(groups[k]) else Err(NoSuchChild);
    }

    method HasProperty(k: seq<byte>) returns (has: bool)
      requires Valid()
      ensures has <==> exists i :: 0 <= i < |children| && children[i].Property? && children[i].name == k
    {
      ghost var i := FirstOfProperties(children, k);
      has := k in props;
    }

    /** The value of the first property of that name in document order. */
    method GetProperty(k: seq<byte>) returns (r: Result<seq<byte>, LookupError>)
      requires Valid()
      ensures r.Ok? <==> exists i :: 0 <= i < |children| && children[i].Property? && children[i].name == k
      ensures r.Ok? ==> exists i: nat :: FirstProperty(children, k, i) && r.value == children[i].value
      ensures r.Err? ==> r.error == NoSuchProperty
    {
      ghost var i := FirstOfProperties(children, k);
      r := if k in props then Ok(props[k][0]) else Err(NoSuchProperty);
    }

    method GetPropertyOr(k: seq<byte>, default: seq<byte>) returns (v: seq<byte>)
      requires Valid()
      ensures (exists i: nat :: FirstProperty(children, k, i) && v == children[i].value)
           || (v == default && HasNone(children, k))
    {
      ghost var i := FirstOfProperties(children, k);
      v := if k in props then props[k][0] else default;
    }

    /** Follow a path of group names down from this group, taking the first group of each name. */
    method GetChildByPath(path: seq<seq<byte>>) returns (r: Result<Node, LookupError>)
      requires Valid()
      ensures r.Ok? ==> Leads(Tree(), path, r.value)
      ensures r.Err? ==> r.error == NoSuchChild && forall n :: !Leads(Tree(), path, n)
    {
      var cur := Tree();
      for i := 0 to |path|
        invariant cur.Group?
        invariant forall n :: Leads(Tree(), path, n) <==> Leads(cur, path[i..], n)
      {
        var g := new TafGroup.Copy(cur);
        ghost var at := FirstOfGroups(cur.children, path[i]);
        var next := g.GetChild(path[i]);
        OneStep(cur, path[i..]);
        if next.Err? {
          return Err(next.error);
        }
        assert path[i..][1..] == path[i + 1..];
        cur := next.value;
      }
      return Ok(cur);
    }

    /** The property that the last name of a path stands for, in the group the other names lead to. */
    method GetByPath(path: seq<seq<byte>>) returns (r: Result<seq<byte>, LookupError>)
      requires Valid() && path != []
      ensures r.Ok? ==> exists n, i: nat :: Leads(Tree(), path[..|path| - 1], n)
                          && FirstProperty(n.children, path[|path| - 1], i) && r.value == n.children[i].value
      ensures var way := path[..|path| - 1];
              r.Err? && r.error == NoSuchChild ==> forall n :: !Leads(Tree(), way, n)
      ensures r.Err? ==> r.error == NoSuchChild || r.error == NoSuchProperty
      ensures r.Err? && r.error == NoSuchProperty ==>
                exists n :: Leads(Tree(), path[..|path| - 1], n) && HasNone(n.children, path[|path| - 1])
    {
      var cur :- GetChildByPath(path[..|path| - 1]);
      var g := new TafGroup.Copy(cur);
      r := g.GetProperty(path[|path| - 1]);
    }
  }

  /** No property has this name. */
  ghost predicate HasNone(ns: seq<Node>, k: seq<byte>)
  {
    forall i :: 0 <= i < |ns| ==> !(ns[i].Property? && ns[i].name == k)
  }

  /** From group `g` the path leads to `n`: each name stands for the first group of that name. */
  ghost predicate Leads(g: Node, path: seq<seq<byte>>, n: Node)
    ensures Leads(g, path, n) ==> n.Group?
    decreases path
  {
    if path == [] then g.Group? && n == g
    else g.Group? && exists i: nat :: FirstGroup(g.children, path[0], i) && Leads(g.children[i], path[1..], n)
  }

  /** The first step of a path is to the one first group of its first name. */
  lemma OneStep(g: Node, path: seq<seq<byte>>)
    requires g.Group? && path != []
    ensures forall i: nat, n :: FirstGroup(g.children, path[0], i) ==>
              (Leads(g, path, n) <==> Leads(g.children[i], path[1..], n))
    ensures (forall i: nat :: !FirstGroup(g.children, path[0], i)) ==> forall n :: !Leads(g, path, n)
  {
  }

  // ---- The writer ----

  class TafWriter {
    var out: seq<byte>
    var depth: nat

    constructor ()
      ensures out == [] && depth == 0
    {
      out, depth := [], 0;
    }

    method Put(s: seq<byte>)
      modifies `out
      ensures out == old(out) + s
    {
      out := out + s;
    }

    method Ident()
      modifies `out
      ensures out == old(out) + Indent(depth)
    {
      for j := 0 to depth
        invariant out + Indent(depth - j) == old(out) + Indent(depth)
      {
        Put([SPACE, SPACE, SPACE, SPACE]);
      }
      assert Indent(0) == [];
    }

    method WriteByte(b: byte)
      modifies `out
      ensures out == old(out) + Escaped(b)
    {
      if b == QUOTE {
        Put([BACKSLASH, QUOTE]);
      } else if b == BACKSLASH {
        Put([BACKSLASH, BACKSLASH]);
      } else if b < 32 || b > 126 {
        Put([BACKSLASH, LOWER_X, HexDigit(b as int / 16), HexDigit(b as int % 16)]);
      } else {
        Put([b]);
      }
    }

    method WriteString(v: seq<byte>)
      modifies `out
      ensures out == old(out) + PrintString(v)
    {
      hide Escaped;
      Put([QUOTE]);
      ghost var start, done := out, [];
      for i := 0 to |v|
        invariant out == start + done && done + EscapedAll(v[i..]) == EscapedAll(v)
      {
        assert v[i..][0] == v[i] && v[i..][1..] == v[i + 1..];
        WriteByte(v[i]);
        done := done + Escaped(v[i]);
      }
      assert done == EscapedAll(v);
      Put([QUOTE]);
    }

    method WriteProperty(name: seq<byte>, value: seq<byte>)
      modifies `out
      ensures out == old(out) + PrintNode(Property(name, value), depth)
    {
      hide PrintString, Indent;
      Ident();
      ghost var start := out;
      if name != [] {
        WriteString(name);
        Put([EQUALS]);
        WriteString(value);
      } else {
        WriteString(value);
      }
      Put([LF]);
      assert out == start + ((if name != [] then PrintString(name) + [EQUALS] else []) + (PrintString(value) + [LF]));
    }

    method WriteComment(text: seq<byte>, endOfLine: bool)
      modifies `out
      ensures out == old(out) + PrintNode(Comment(text, endOfLine), depth)
    {
      Ident();
      if endOfLine {
        Put([SLASH, SLASH]);
        Put(text);
        Put([LF]);
      } else {
        Put([SLASH, STAR]);
        Put(text);
        Put([STAR, SLASH, SPACE]);
      }
    }

    method WriteNodes(ns: seq<Node>)
      modifies this
      ensures depth == old(depth) && out == old(out) + PrintNodes(ns, depth)
      decreases ns, 0
    {
      hide PrintNode;
      ghost var start, done := out, [];
      for i := 0 to |ns|
        invariant depth == old(depth) && out == start + done
        invariant done + PrintNodes(ns[i..], depth) == PrintNodes(ns, depth)
      {
        assert ns[i..][0] == ns[i] && ns[i..][1..] == ns[i + 1..];
        match ns[i] {
        case Group(k, children) => WriteGroup(k, children);
        case Property(k, v) => WriteProperty(k, v);
        case Comment(text, endOfLine) => WriteComment(text, endOfLine);
        }
        done := done + PrintNode(ns[i], depth);
      }
      assert done == PrintNodes(ns, depth);
    }

    method WriteGroup(name: seq<byte>, children: seq<Node>)
      modifies this
      ensures depth == old(depth) && out == old(out) + PrintNode(Group(name, children), depth)
      decreases children, 1
    {
      hide PrintString, Indent, PrintNodes;
      Ident();
      ghost var start := out;
      Put([OPEN]);
      if name != [] {
        WriteString(name);
      }
      Put([COLON, LF]);
      depth := depth + 1;
      WriteNodes(children);
      depth := depth - 1;
      Ident();
      Put([CLOSE, LF]);
      assert out == start + ([OPEN] + ((if name != [] then PrintString(name) else []) + ([COLON, LF] +
                    (PrintNodes(children, depth + 1) + (Indent(depth) + [CLOSE, LF])))));
    }
  }

  // ---- The reader ----

  /** A step of the reader did what its specification says. */
  ghost predicate Stepped(spec: Result<State, TafError>, r: Result<(), TafError>, st: State)
  {
    match spec
    case Ok(s) => r.Ok? && st == s
    case Err(e) => r == Err(e)
  }

  /** The reader read what its specification says. */
  ghost predicate Did<T>(spec: Result<(T, State), TafError>, r: Result<T, TafError>, st: State)
  {
    match spec
    case Ok(p) => r == Ok(p.0) && st == p.1
    case Err(e) => r == Err(e)
  }

  class TafReader {
    var c: byte
    var la: byte
    var input: seq<byte>

    constructor (input: seq<byte>)
      ensures St() == State(0, 0, input)
    {
      c, la, this.input := 0, 0, input;
    }

    ghost function St(): State
      reads this
    {
      State(c, la, input)
    }

    /** Come to the first byte. */
    method Begin() returns (r: Result<(), TafError>)
      requires c == 0 && la == 0
      modifies this
      ensures Stepped(Start(old(input)), r, St())
    {
      var _ :- Next();
      r := Next();
    }

    method RawRead() returns (r: Result<byte, TafError>)
      modifies `input
      ensures old(input) == [] ==> r == Err(PrematureEnd)
      ensures old(input) != [] ==> r == Ok(old(input)[0]) && input == old(input)[1..]
    {
      if input == [] {
        return Err(PrematureEnd);
      }
      r := Ok(input[0]);
      input := input[1..];
    }

    method Next() returns (r: Result<(), TafError>)
      modifies this
      ensures Stepped(TafSyntax.Next(old(St())), r, St())
    {
      if c == CLOSE {
        c :- RawRead();
        if c != CLOSE {
          la :- RawRead();
        }
      } else {
        c := la;
        if c != CLOSE {
          la :- RawRead();
        }
      }
      r := Ok(());
    }

    method Ws() returns (r: Result<(), TafError>)
      modifies this
      ensures Stepped(SkipWs(old(St())), r, St())
    {
      while IsSpace(c)
        invariant SkipWs(St()) == SkipWs(old(St()))
        decreases Measure(St())
      {
        var _ :- Next();
      }
      r := Ok(());
    }

    /** The byte an escape sequence stands for becomes the current byte. */
    method Escape() returns (r: Result<(), TafError>)
      modifies this
      ensures Stepped(Unescape(old(St())), r, St())
    {
      if c == LOWER_X {
        var _ :- Next();
        var high := c;
        var _ :- Next();
        c := HexByte(high, c);
      } else if c == QUOTE {
      } else if c == BACKSLASH {
      } else if c == LOWER_N {
        c := LF;
      } else if c == LOWER_T {
        c := TAB;
      } else {
        return Err(InvalidEscape);
      }
      r := Ok(());
    }

    method ReadString() returns (r: Result<seq<byte>, TafError>)
      modifies this
      ensures Did(ReadStr(old(St())), r, St())
    {
      var _ :- Ws();
      var s := [];
      if c == QUOTE {
        var _ :- Next();
        ghost var start := St();
        while c != QUOTE
          invariant ReadQuoted(St(), s) == ReadQuoted(start, [])
          decreases Measure(St())
        {
          if c == BACKSLASH {
            var _ :- Next();
            var _ :- Escape();
          }
          s := s + [c];
          var _ :- Next();
        }
        var _ :- Next();
      } else {
        ghost var start := St();
        while !EndsBare(c)
          invariant ReadBare(St(), s) == ReadBare(start, [])
          decreases Measure(St())
        {
          s := s + [c];
          var _ :- Next();
        }
      }
      r := Ok(s);
    }

    method ReadComment(endOfLine: bool) returns (r: Result<Node, TafError>)
      modifies this
      ensures Did(TafSyntax.ReadComment(old(St()), endOfLine), r, St())
    {
      var _ :- Next();
      var text := [];
      ghost var start := St();
      if endOfLine {
        while true
          invariant ReadLine(St(), text) == ReadLine(start, [])
          decreases Measure(St())
        {
          var _ :- Next();
          if c == LF && la == CR {
            var _ :- Next();
            var _ :- Next();
            break;
          } else if c == LF || c == CR {
            var _ :- Next();
            break;
          }
          text := text + [c];
        }
      } else {
        while true
          invariant ReadBlock(St(), text) == ReadBlock(start, [])
          decreases Measure(St())
        {
          var _ :- Next();
          if c == STAR && la == SLASH {
            var _ :- Next();
            var _ :- Next();
            break;
          }
          text := text + [c];
        }
      }
      r := Ok(Comment(text, endOfLine));
    }

    method ReadProperty() returns (r: Result<Node, TafError>)
      modifies this
      ensures Did(TafSyntax.ReadProperty(old(St())), r, St())
    {
      var name :- ReadString();
      var _ :- Ws();
      if c != EQUALS {
        return Ok(Property([], name));
      }
      var _ :- Next();
      var value :- ReadString();
      r := Ok(Property(name, value));
    }

    /** Add what the group holds, up to its closing brace. */
    method GroupContent(g: TafGroup) returns (r: Result<(), TafError>)
      requires g.Valid() && g.children == []
      modifies this, g
      ensures g.Valid() && g.name == old(g.name)
      ensures match ReadContent(old(St()), [])
              case Ok(p) => r.Ok? && g.children == p.0 && St() == p.1
              case Err(e) => r == Err(e)
      decreases Measure(St()), 1
    {
      while true
        invariant g.Valid() && g.name == old(g.name)
        invariant ReadContent(St(), g.children) == ReadContent(old(St()), [])
        decreases Measure(St())
      {
        var _ :- Ws();
        if c == OPEN {
          var child :- ReadGroup();
          g.AddChild(child.Tree());
          var _ :- Next();
        } else if c == CLOSE {
          return Ok(());
        } else if c == SLASH && la == STAR {
          var comment :- ReadComment(false);
          g.AddChild(comment);
        } else if c == SLASH && la == SLASH {
          var comment :- ReadComment(true);
          g.AddChild(comment);
        } else if c == COLON {
          return Err(StrayColon);
        } else {
          var prop :- ReadProperty();
          g.AddChild(prop);
        }
      }
    }

    /** Read a group; its closing brace stays the current byte. */
    method ReadGroup() returns (r: Result<TafGroup, TafError>)
      modifies this
      ensures match TafSyntax.ReadGroup(old(St()))
              case Ok(p) => r.Ok? && fresh(r.value) && r.value.Valid() && r.value.Tree() == p.0 && St() == p.1
              case Err(e) => r.Err? && r.error == e
      decreases Measure(St()), 0
    {
      var _ :- Ws();
      if c != OPEN {
        return Err(ExpectedOpen);
      }
      var _ :- Next();
      var _ :- Ws();
      var name :- ReadString();
      var g := new TafGroup(name);
      var _ :- Ws();
      if c != COLON {
        return Err(ExpectedColon);
      }
      var _ :- Next();
      var _ :- GroupContent(g);
      if c != CLOSE {
        return Err(ExpectedClose);
      }
      r := Ok(g);
    }
  }
}
