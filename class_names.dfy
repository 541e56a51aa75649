/** The class-name joiner (cn.js): drops the falsy arguments and joins the
    rest, in argument order, with single spaces. */
module ClassNames {
  /** One argument of `cn`: null or undefined, a boolean, or a string. */
  datatype ClassArg = Missing | Flag(b: bool) | Name(s: string)

  /** JavaScript truthiness for the argument kinds `cn` accepts. */
  predicate Truthy(a: ClassArg) {
    match a
    case Missing => false
    case Flag(b) => b
    case Name(s) => s != ""
  }

  /** The text a kept argument contributes when joined. */
  function Text(a: ClassArg): (t: string)
    requires Truthy(a)
    ensures t != ""
    ensures a.Name? ==> t == a.s
  {
    match a
    case Flag(_) => "true"
    case Name(s) => s
  }

  /** filter(Boolean), followed by the conversion to text. */
  function Kept(args: seq<ClassArg>): (r: seq<string>)
    ensures |r| <= |args|
    ensures forall i :: 0 <= i < |r| ==> r[i] != ""
    ensures |r| == 0 <==> forall i :: 0 <= i < |args| ==> !Truthy(args[i])
  {
    if args == [] then []
    else (if Truthy(args[0]) then [Text(args[0])] else []) + Kept(args[1..])
  }

  /** Array.prototype.join with the separator " ". */
  function Join(parts: seq<string>): (s: string)
    ensures parts == [] ==> s == ""
    ensures |parts| == 1 ==> s == parts[0]
  {
    if parts == [] then ""
    else if |parts| == 1 then parts[0]
    else parts[0] + " " + Join(parts[1..])
  }

  /** cn(...classes). */
  function Cn(args: seq<ClassArg>): string {
    Join(Kept(args))
  }

  /** Joining nonempty parts gives nonempty text. */
  lemma {:induction false} JoinNonEmpty(parts: seq<string>)
    requires parts != []
    requires forall i :: 0 <= i < |parts| ==> parts[i] != ""
    ensures Join(parts) != ""
  {
    if |parts| > 1 {
      assert |Join(parts)| >= |parts[0]|;
    }
  }

  /** Joining a concatenation puts one space between the two joins when both
      sides are nonempty. */
  lemma {:induction false} JoinAppend(a: seq<string>, b: seq<string>)
    ensures a == [] ==> Join(a + b) == Join(b)
    ensures b == [] ==> Join(a + b) == Join(a)
    ensures a != [] && b != [] ==> Join(a + b) == Join(a) + " " + Join(b)
  {
    if a == [] {
      assert a + b == b;
    } else if b == [] {
      assert a + b == a;
    } else if |a| == 1 {
      assert (a + b)[1..] == b;
    } else {
      JoinAppend(a[1..], b);
      assert (a + b)[1..] == a[1..] + b;
    }
  }

  /** Kept distributes over concatenation of the argument lists. */
  lemma {:induction false} KeptAppend(a: seq<ClassArg>, b: seq<ClassArg>)
    ensures Kept(a + b) == Kept(a) + Kept(b)
  {
    if a == [] {
      assert a + b == b;
    } else {
      var head := if Truthy(a[0]) then [Text(a[0])] else [];
      assert (a + b)[0] == a[0];
      assert (a + b)[1..] == a[1..] + b;
      calc {
        Kept(a + b);
        head + Kept(a[1..] + b);
        { KeptAppend(a[1..], b); }
        head + (Kept(a[1..]) + Kept(b));
        (head + Kept(a[1..])) + Kept(b);
      }
    }
  }

  /** No arguments, or only falsy ones, give the empty string, and any
      truthy argument gives a nonempty string. */
  lemma CnEmpty(args: seq<ClassArg>)
    ensures Cn(args) == "" <==> forall i :: 0 <= i < |args| ==> !Truthy(args[i])
  {
    if Kept(args) != [] {
      JoinNonEmpty(Kept(args));
    }
  }

  /** A single truthy string comes back unchanged, with no separator. */
  lemma CnSingle(s: string)
    requires s != ""
    ensures Cn([Name(s)]) == s
  {
    assert Kept([Name(s)]) == [s] by {
      assert [Name(s)][1..] == [];
    }
  }

  /** Falsy arguments anywhere among the others change nothing. */
  lemma CnDropsFalsy(a: seq<ClassArg>, x: ClassArg, b: seq<ClassArg>)
    requires !Truthy(x)
    ensures Cn(a + [x] + b) == Cn(a + b)
  {
    assert Kept([x]) == [] by {
      assert [x][1..] == [];
    }
    KeptAppend([x], b);
    assert Kept([x] + b) == Kept(b);
    assert a + [x] + b == a + ([x] + b);
    KeptAppend(a, [x] + b);
    KeptAppend(a, b);
    assert Kept(a + [x] + b) == Kept(a + b);
  }

  /** The result of two argument lists is their two results, in order,
      separated by one space when both are nonempty. */
  lemma CnAppend(a: seq<ClassArg>, b: seq<ClassArg>)
    ensures Cn(a) == "" ==> Cn(a + b) == Cn(b)
    ensures Cn(b) == "" ==> Cn(a + b) == Cn(a)
    ensures Cn(a) != "" && Cn(b) != "" ==> Cn(a + b) == Cn(a) + " " + Cn(b)
  {
    KeptAppend(a, b);
    JoinAppend(Kept(a), Kept(b));
    if Kept(a) != [] {
      JoinNonEmpty(Kept(a));
    }
    if Kept(b) != [] {
      JoinNonEmpty(Kept(b));
    }
  }
}
