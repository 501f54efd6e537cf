/** First-order terms of the fuzzer's term algebra: a variable, or a function applied to
    argument terms. Size and leaf tests, the post-order iterator, subterm search over a list of
    terms, and the helpers that shorten Rust type and function names for display. */
module AlgebraTerm {
  import opened Wrappers
  import opened Seqs

  /** A type, identified by its Rust type name. */
  datatype TypeShape = TypeShape(name: string)

  /** A function's signature: its name, argument types and return type. */
  datatype FunctionShape = FunctionShape(name: string, argumentTypes: seq<TypeShape>, returnType: TypeShape)

  /** `atoms::Function`: a signature plus the id that survives mutation. */
  datatype Func = Func(shape: FunctionShape, resistantId: nat)

  /** `atoms::Variable`: a typed placeholder plus the id that survives mutation. */
  datatype Var = Var(typ: TypeShape, resistantId: nat)

  datatype Term = Variable(variable: Var) | Application(func: Func, args: seq<Term>)

  /** `resistant_id`: the id of the root atom. */
  function ResistantId(t: Term): nat
  {
    match t
    case Variable(v) => v.resistantId
    case Application(f, _) => f.resistantId
  }

  /** `get_type_shape`: the variable's type, or the function's return type. */
  function GetTypeShape(t: Term): TypeShape
  {
    match t
    case Variable(v) => v.typ
    case Application(f, _) => f.shape.returnType
  }

  /** `name`: the variable's type name, or the function's name. */
  function Name(t: Term): string
  {
    match t
    case Variable(v) => v.typ.name
    case Application(f, _) => f.shape.name
  }

  /** `size`: the number of nodes, at least one. */
  function Size(t: Term): (n: nat)
    ensures n >= 1
    decreases t
  {
    match t
    case Variable(_) => 1
    case Application(_, subterms) => SizeSum(subterms) + 1
  }

  /** The summed sizes of a list of terms: at least one per term. */
  function SizeSum(ts: seq<Term>): (n: nat)
    ensures n >= |ts|
    decreases ts
  {
    if ts == [] then 0 else SizeSum(ts[..|ts| - 1]) + Size(ts[|ts| - 1])
  }

  /** `is_leaf`: a variable or an argumentless application (a constant); exactly the terms of
      size one. */
  function IsLeaf(t: Term): (r: bool)
    ensures r <==> Size(t) == 1
  {
    match t
    case Variable(_) => true
    case Application(_, subterms) => subterms == []
  }

  /** `mutate` replaces a term in place; the slot stands for the `&mut Term`. */
  class TermSlot {
    var term: Term

    constructor (t: Term)
      ensures term == t
    {
      term := t;
    }

    method Mutate(other: Term)
      modifies this
      ensures term == other
    {
      term := other;
    }
  }

  /** Post-order: each argument's traversal from left to right, then the node itself. */
  function PostOrder(t: Term): seq<Term>
    decreases t
  {
    match t
    case Variable(_) => [t]
    case Application(_, subterms) => PostOrderAll(subterms) + [t]
  }

  function PostOrderAll(ts: seq<Term>): seq<Term>
    decreases ts
  {
    if ts == [] then [] else PostOrderAll(ts[..|ts| - 1]) + PostOrder(ts[|ts| - 1])
  }

  /** The traversal visits as many nodes as `size` counts. */
  lemma {:induction false} PostOrderLength(t: Term)
    ensures |PostOrder(t)| == Size(t)
    decreases t
  {
    match t
    case Variable(_) =>
    case Application(_, subterms) => PostOrderAllLength(subterms);
  }

  lemma {:induction false} PostOrderAllLength(ts: seq<Term>)
    ensures |PostOrderAll(ts)| == SizeSum(ts)
    decreases ts
  {
    if ts != [] {
      PostOrderAllLength(ts[..|ts| - 1]);
      PostOrderLength(ts[|ts| - 1]);
    }
  }

  /** The root comes last, and every visited node is a subterm no larger than the root. */
  lemma {:induction false} PostOrderRootLast(t: Term)
    ensures PostOrder(t) != [] && PostOrder(t)[|PostOrder(t)| - 1] == t
    ensures forall u :: u in PostOrder(t) ==> Size(u) <= Size(t)
    decreases t
  {
    match t
    case Variable(_) =>
    case Application(_, subterms) =>
      PostOrderAllBounded(subterms);
  }

  lemma {:induction false} PostOrderAllBounded(ts: seq<Term>)
    ensures forall u :: u in PostOrderAll(ts) ==> Size(u) <= SizeSum(ts)
    decreases ts
  {
    if ts != [] {
      PostOrderAllBounded(ts[..|ts| - 1]);
      PostOrderRootLast(ts[|ts| - 1]);
    }
  }

  /** The `Vec<&Term>` that `append` pushes into. */
  class TermVec {
    var items: seq<Term>

    constructor ()
      ensures items == []
    {
      items := [];
    }

    method Push(t: Term)
      modifies this
      ensures items == old(items) + [t]
    {
      items := items + [t];
    }
  }

  /** `append`: pushes the post-order traversal of `t` onto `v`. */
  method Append(t: Term, v: TermVec)
    modifies v
    ensures v.items == old(v.items) + PostOrder(t)
    decreases t
  {
    match t {
      case Variable(_) =>
      case Application(_, subterms) =>
        var i := 0;
        while i < |subterms|
          invariant 0 <= i <= |subterms|
          invariant v.items == old(v.items) + PostOrderAll(subterms[..i])
        {
          assert subterms[..i + 1][..i] == subterms[..i];
          Append(subterms[i], v);
          i := i + 1;
        }
        assert subterms[..i] == subterms;
    }
    v.Push(t);
  }

  /** `into_iter`: the nodes of `t` in post-order. */
  method IntoIter(t: Term) returns (r: seq<Term>)
    ensures r == PostOrder(t)
  {
    var v := new TermVec();
    Append(t, v);
    r := v.items;
  }

  /** `find_subterm`: the first term satisfying the predicate, or None when none does. */
  function FindSubterm(ts: seq<Term>, pred: Term -> bool): (r: Option<Term>)
    ensures r.None? <==> forall i :: 0 <= i < |ts| ==> !pred(ts[i])
    ensures r.Some? ==> exists i :: 0 <= i < |ts| && ts[i] == r.value && pred(r.value) &&
                                    forall k :: 0 <= k < i ==> !pred(ts[k])
  {
    if ts == [] then None
    else if pred(ts[0]) then Some(ts[0])
    else
      var r := FindSubterm(ts[1..], pred);
      assert forall i :: 1 <= i < |ts| ==> ts[i] == ts[1..][i - 1];
      assert r.Some? ==> exists i :: 0 <= i < |ts| && ts[i] == r.value && pred(r.value) &&
                                     forall k :: 0 <= k < i ==> !pred(ts[k]) by {
        if r.Some? {
          var i :| 0 <= i < |ts| - 1 && ts[1..][i] == r.value && pred(r.value) &&
                   forall k :: 0 <= k < i ==> !pred(ts[1..][k]);
          assert ts[i + 1] == r.value;
        }
      }
      r
  }

  /** `find_subterm_same_shape`: the first term of the same type as `t`, or None when none is. */
  function FindSubtermSameShape(ts: seq<Term>, t: Term): (r: Option<Term>)
    ensures r.None? <==> forall i :: 0 <= i < |ts| ==> GetTypeShape(ts[i]) != GetTypeShape(t)
    ensures r.Some? ==> r.value in ts && GetTypeShape(r.value) == GetTypeShape(t)
  {
    FindSubterm(ts, u => GetTypeShape(t) == GetTypeShape(u))
  }

  /** One result of `filter_grand_subterms`: a parent's index, the parent, and one of its
      arguments. */
  datatype GrandSubterm = GrandSubterm(index: nat, parent: Term, grand: Term)

  /** The predicate of `filter_grand_subterms` with its parent fixed. */
  function Keeps(pred: (Term, Term) -> bool, parent: Term): Term -> bool
  {
    g => pred(parent, g)
  }

  /** The matching arguments of the parent at `index`, in argument order. */
  function MatchingChildren(index: nat, parent: Term, pred: (Term, Term) -> bool): seq<GrandSubterm>
  {
    match parent
    case Variable(_) => []
    case Application(_, grands) =>
      Tag(index, parent, Filter(grands, Keeps(pred, parent)))
  }

  function Tag(index: nat, parent: Term, gs: seq<Term>): (r: seq<GrandSubterm>)
    ensures |r| == |gs| && forall k :: 0 <= k < |gs| ==> r[k] == GrandSubterm(index, parent, gs[k])
  {
    if gs == [] then [] else [GrandSubterm(index, parent, gs[0])] + Tag(index, parent, gs[1..])
  }

  /** What `filter_grand_subterms` collects: the matching children of each term, parent by
      parent. */
  function GrandSubterms(ts: seq<Term>, pred: (Term, Term) -> bool): seq<GrandSubterm>
  {
    if ts == [] then []
    else GrandSubterms(ts[..|ts| - 1], pred) + MatchingChildren(|ts| - 1, ts[|ts| - 1], pred)
  }

  /** `filter_grand_subterms`, extending a local vector parent by parent. */
  method FilterGrandSubterms(ts: seq<Term>, pred: (Term, Term) -> bool) returns (found: seq<GrandSubterm>)
    ensures found == GrandSubterms(ts, pred)
  {
    found := [];
    for i := 0 to |ts|
      invariant found == GrandSubterms(ts[..i], pred)
    {
      assert ts[..i + 1][..i] == ts[..i];
      match ts[i] {
        case Variable(_) =>
        case Application(_, grands) =>
          found := found + Tag(i, ts[i], Filter(grands, Keeps(pred, ts[i])));
      }
    }
    assert ts[..|ts|] == ts;
  }

  /** A triple is found exactly when its index names a parent in `ts` that is an application,
      the grand subterm is one of that parent's arguments, and the predicate accepts the pair. */
  lemma {:induction false} GrandSubtermsMembers(ts: seq<Term>, pred: (Term, Term) -> bool, x: GrandSubterm)
    ensures x in GrandSubterms(ts, pred) <==>
            x.index < |ts| && x.parent == ts[x.index] && x.parent.Application? &&
            x.grand in x.parent.args && pred(x.parent, x.grand)
  {
    if ts != [] {
      var last := |ts| - 1;
      GrandSubtermsMembers(ts[..last], pred, x);
      var here := MatchingChildren(last, ts[last], pred);
      if ts[last].Application? {
        FilterMembers(ts[last].args, g => pred(ts[last], g), x.grand);
        if x in here {
          var k :| 0 <= k < |here| && here[k] == x;
        }
      }
      assert x.index < last ==> ts[..last][x.index] == ts[x.index];
    }
  }

  /** Results come grouped by parent: parent indices never decrease along the result. */
  lemma {:induction false} GrandSubtermsOrdered(ts: seq<Term>, pred: (Term, Term) -> bool)
    ensures forall a, b :: 0 <= a < b < |GrandSubterms(ts, pred)| ==>
              GrandSubterms(ts, pred)[a].index <= GrandSubterms(ts, pred)[b].index
    ensures forall a :: 0 <= a < |GrandSubterms(ts, pred)| ==> GrandSubterms(ts, pred)[a].index < |ts|
  {
    if ts != [] {
      var last := |ts| - 1;
      GrandSubtermsOrdered(ts[..last], pred);
      var here := MatchingChildren(last, ts[last], pred);
      assert forall k :: 0 <= k < |here| ==> here[k].index == last;
    }
  }

  /** Selects the results that belong to the parent at index `i`. */
  function AtIndex(i: nat): GrandSubterm -> bool
  {
    (x: GrandSubterm) => x.index == i
  }

  /** The grand subterms of a run of results, in order. */
  function Grands(xs: seq<GrandSubterm>): seq<Term>
  {
    seq(|xs|, k requires 0 <= k < |xs| => xs[k].grand)
  }

  /** Every result for one parent carries that parent and its index. */
  lemma MatchingChildrenTagged(index: nat, parent: Term, pred: (Term, Term) -> bool)
    ensures forall k :: 0 <= k < |MatchingChildren(index, parent, pred)| ==>
              MatchingChildren(index, parent, pred)[k].index == index &&
              MatchingChildren(index, parent, pred)[k].parent == parent
  {
  }

  /** For one parent, the grand subterms found are its arguments that the predicate accepts, in
      argument order, each as often as it occurs among the arguments. */
  lemma MatchingChildrenSpec(index: nat, parent: Term, pred: (Term, Term) -> bool, g: Term)
    requires parent.Application?
    ensures IsSubsequence(Grands(MatchingChildren(index, parent, pred)), parent.args)
    ensures multiset(Grands(MatchingChildren(index, parent, pred)))[g] ==
            if pred(parent, g) then multiset(parent.args)[g] else 0
  {
    var kept := Filter(parent.args, Keeps(pred, parent));
    assert Grands(MatchingChildren(index, parent, pred)) == kept;
    FilterIsSubsequence(parent.args, Keeps(pred, parent));
    FilterCounts(parent.args, Keeps(pred, parent), g);
  }

  /** The results for the parent at index `i` are exactly that parent's matching children, in
      argument order: the output is ordered by parent index, then by argument position. */
  lemma {:induction false} GrandSubtermsBlock(ts: seq<Term>, pred: (Term, Term) -> bool, i: nat)
    requires i < |ts|
    ensures Filter(GrandSubterms(ts, pred), AtIndex(i)) == MatchingChildren(i, ts[i], pred)
    decreases |ts|
  {
    var last := |ts| - 1;
    var prev := GrandSubterms(ts[..last], pred);
    var here := MatchingChildren(last, ts[last], pred);
    FilterAppend(prev, here, AtIndex(i));
    MatchingChildrenTagged(last, ts[last], pred);
    if i == last {
      GrandSubtermsOrdered(ts[..last], pred);
      FilterKeepsNone(prev, AtIndex(i));
      FilterKeepsAll(here, AtIndex(i));
      assert Filter(prev, AtIndex(i)) + here == here;
    } else {
      GrandSubtermsBlock(ts[..last], pred, i);
      assert ts[..last][i] == ts[i];
      FilterKeepsNone(here, AtIndex(i));
      assert Filter(prev, AtIndex(i)) + [] == Filter(prev, AtIndex(i));
    }
  }

  /** `rfind("::")` and friends work on this: a `"::"` starts at `j`. */
  predicate PathSepAt(s: string, j: int)
  {
    0 <= j && j + 2 <= |s| && s[j] == ':' && s[j + 1] == ':'
  }

  /** `rfind("::")`: the start of the last `"::"`. */
  function LastPathSep(s: string): (r: Option<nat>)
    ensures r.Some? ==> PathSepAt(s, r.value) && forall j :: r.value < j ==> !PathSepAt(s, j)
    ensures r.None? ==> forall j :: !PathSepAt(s, j)
  {
    if |s| < 2 then None
    else if s[|s| - 2] == ':' && s[|s| - 1] == ':' then Some(|s| - 2)
    else
      var r := LastPathSep(s[..|s| - 1]);
      assert forall j :: PathSepAt(s, j) && j + 2 < |s| ==> PathSepAt(s[..|s| - 1], j);
      r
  }

  /** Everything after the last `"::"`, or the whole string when it has none. */
  function StripPath(s: string): string
  {
    match LastPathSep(s)
    case Some(pos) => s[pos + 2..]
    case None => s
  }

  /** The stripped name is a suffix of the input that holds no `"::"`, and a name without
      `"::"` is left alone. */
  lemma StripPathSpec(s: string)
    ensures var r := StripPath(s); |r| <= |s| && r == s[|s| - |r|..]
    ensures forall j :: !PathSepAt(StripPath(s), j)
    ensures (forall j :: !PathSepAt(s, j)) ==> StripPath(s) == s
  {
    match LastPathSep(s)
    case Some(pos) =>
      var r := s[pos + 2..];
      forall j | PathSepAt(r, j) ensures false {
        assert PathSepAt(s, pos + 2 + j);
      }
    case None =>
  }

  /** A name after a final `"::"` is what is left. */
  lemma StripPathAfterLastSep(prefix: string, name: string)
    requires ':' !in name
    ensures StripPath(prefix + "::" + name) == name
  {
    var s := prefix + "::" + name;
    var p := |prefix|;
    assert PathSepAt(s, p);
    forall j | p + 2 <= j < |s| ensures s[j] != ':' {
      assert s[j] == name[j - p - 2];
    }
    assert s[p + 2..] == name;
  }

  /** The index of the first `c` in `s`. */
  function IndexOf(s: string, c: char): (i: nat)
    requires c in s
    ensures i < |s| && s[i] == c && c !in s[..i]
  {
    if s[0] == c then 0 else 1 + IndexOf(s[1..], c)
  }

  /** The first `c` is at `k` when `k` holds a `c` and nothing before it does. */
  lemma {:induction false} IndexOfFirst(s: string, c: char, k: nat)
    requires k < |s| && s[k] == c && c !in s[..k]
    ensures IndexOf(s, c) == k
  {
    if k > 0 {
      assert s[..k][0] == s[0];
      assert s[1..][..k - 1] == s[1..k];
      assert forall x :: x in s[1..k] ==> x in s[..k];
      IndexOfFirst(s[1..], c, k - 1);
    }
  }

  /** The first `c` is no later than any `c`. */
  lemma {:induction false} IndexOfAtMost(s: string, c: char, k: nat)
    requires k < |s| && s[k] == c
    ensures IndexOf(s, c) <= k
  {
    if s[0] != c {
      IndexOfAtMost(s[1..], c, k - 1);
    }
  }

  /** `split('<').collect_tuple()`: the two pieces around the only `'<'`, or None when there is
      no `'<'` or more than one. */
  function SplitAtAngle(s: string): (r: Option<(string, string)>)
    ensures r.Some? ==> s == r.value.0 + "<" + r.value.1 && '<' !in r.value.0 && '<' !in r.value.1
    ensures r.None? ==> '<' !in s || exists i, j :: 0 <= i < j < |s| && s[i] == '<' && s[j] == '<'
  {
    if '<' !in s then None
    else
      var i := IndexOf(s, '<');
      assert s == s[..i] + "<" + s[i + 1..];
      if '<' in s[i + 1..] then
        var k :| 0 <= k < |s[i + 1..]| && s[i + 1..][k] == '<';
        assert s[i + 1 + k] == '<';
        None
      else Some((s[..i], s[i + 1..]))
  }

  /** A string with exactly one `'<'` splits around it. */
  lemma SplitAtAngleOf(a: string, b: string)
    requires '<' !in a && '<' !in b
    ensures SplitAtAngle(a + "<" + b) == Some((a, b))
  {
    var s := a + "<" + b;
    assert s[..|a|] == a && s[|a|] == '<' && s[|a| + 1..] == b;
    IndexOfFirst(s, '<', |a|);
  }

  /** `remove_prefix`: with exactly one `'<'`, the path is stripped from the outer name and, after
      dropping the generic part's last character, from the generic part too; otherwise the path is
      stripped from the whole string. None stands for the panic on a `'<'` that ends the string,
      where the generic part is empty and dropping its last character underflows. */
  function RemovePrefix(s: string): Option<string>
    decreases |s|
  {
    match SplitAtAngle(s)
    case Some((nonGeneric, generic)) =>
      if generic == [] then None
      else (
        match RemovePrefix(generic[..|generic| - 1])
        case None => None
        case Some(inner) => Some(StripPath(nonGeneric) + "<" + inner + ">"))
    case None => Some(StripPath(s))
  }

  /** Without `'<'` only the path goes. */
  lemma RemovePrefixPlain(s: string)
    requires '<' !in s
    ensures RemovePrefix(s) == Some(StripPath(s))
  {
  }

  /** With two or more `'<'` (a nested generic) the whole string is treated as a plain path, so
      everything up to the last `"::"`, inside the brackets or not, goes. */
  lemma RemovePrefixNested(s: string, i: nat, j: nat)
    requires i < j < |s| && s[i] == '<' && s[j] == '<'
    ensures RemovePrefix(s) == Some(StripPath(s))
  {
    var f := IndexOf(s, '<');
    IndexOfAtMost(s, '<', i);
    assert s[f + 1..][j - f - 1] == '<';
  }

  /** With exactly one `'<'`, and a character after the generic part, the result is the stripped
      outer name and the stripped generic part in angle brackets. */
  lemma RemovePrefixGeneric(outer: string, generic: string, close: char)
    requires '<' !in outer && '<' !in generic && close != '<'
    ensures RemovePrefix(outer + "<" + generic + [close]) ==
            Some(StripPath(outer) + "<" + StripPath(generic) + ">")
  {
    var tail := generic + [close];
    assert '<' !in tail;
    assert outer + "<" + generic + [close] == outer + "<" + tail;
    SplitAtAngleOf(outer, tail);
    assert tail[..|tail| - 1] == generic;
    RemovePrefixPlain(generic);
  }

  /** The panic: exactly one `'<'`, and it is the last character. */
  lemma RemovePrefixFailsExactly(s: string)
    ensures RemovePrefix(s).None? <==> |s| > 0 && s[|s| - 1] == '<' && '<' !in s[..|s| - 1]
  {
    RemovePrefixFailsOnEmptyGeneric(s);
    EmptyGenericIffTrailingAngle(s);
  }

  /** `remove_prefix` panics exactly when the split finds a generic part that is empty. */
  lemma RemovePrefixFailsOnEmptyGeneric(s: string)
    ensures RemovePrefix(s).None? <==> SplitAtAngle(s).Some? && SplitAtAngle(s).value.1 == []
  {
    match SplitAtAngle(s)
    case Some((a, b)) =>
      if b != [] {
        assert forall x :: x in b[..|b| - 1] ==> x in b;
        RemovePrefixPlain(b[..|b| - 1]);
      }
    case None =>
  }

  /** The generic part is empty exactly when the only `'<'` ends the string. */
  lemma EmptyGenericIffTrailingAngle(s: string)
    ensures SplitAtAngle(s).Some? && SplitAtAngle(s).value.1 == [] <==>
            |s| > 0 && s[|s| - 1] == '<' && '<' !in s[..|s| - 1]
  {
    if |s| > 0 && s[|s| - 1] == '<' && '<' !in s[..|s| - 1] {
      assert s == s[..|s| - 1] + "<" + [];
      SplitAtAngleOf(s[..|s| - 1], []);
    }
    match SplitAtAngle(s)
    case Some((a, b)) =>
      if b == [] {
        assert s[..|s| - 1] == a;
      }
    case None =>
  }

  // The inputs and outputs of the tests of `remove_prefix`.
  const TEST_PATH: string := "test::test::Test"
  const TEST_GENERIC: string := "test::test::Test<Asdf>"
  const TEST_GENERIC_RECURSIVE: string := "test::test::Test<asdf::Asdf>"
  const ASDF: string := "Asdf"
  const ASDF_PATH: string := "asdf::Asdf"

  lemma TestPathStrips()
    ensures StripPath(TEST_PATH) == "Test" && '<' !in TEST_PATH
  {
    assert TEST_PATH == "test::test" + "::" + "Test";
    StripPathAfterLastSep("test::test", "Test");
  }

  /** A name without any `':'` has no path to strip. */
  lemma StripPathNoColon(s: string)
    requires ':' !in s
    ensures StripPath(s) == s
  {
    forall j | 0 <= j < |s| ensures s[j] != ':' {
      assert s[j] in s;
    }
    StripPathSpec(s);
  }

  lemma AsdfStrips()
    ensures StripPath(ASDF) == ASDF && '<' !in ASDF
  {
    assert ':' !in ASDF;
    StripPathNoColon(ASDF);
  }

  lemma AsdfPathStrips()
    ensures StripPath(ASDF_PATH) == ASDF && '<' !in ASDF_PATH
  {
    assert ASDF_PATH == "asdf" + "::" + ASDF;
    assert ':' !in ASDF;
    StripPathAfterLastSep("asdf", ASDF);
  }

  lemma TestGenericSplits()
    ensures TEST_GENERIC == TEST_PATH + "<" + ASDF + ['>']
    ensures TEST_GENERIC_RECURSIVE == TEST_PATH + "<" + ASDF_PATH + ['>']
    ensures "Test" + "<" + ASDF + ">" == "Test<Asdf>"
  {
  }

  /** `test_normal` */
  lemma RemovePrefixNormalExample()
    ensures RemovePrefix(TEST_PATH) == Some("Test")
  {
    TestPathStrips();
    RemovePrefixPlain(TEST_PATH);
  }

  /** `test_generic` */
  lemma RemovePrefixGenericExample()
    ensures RemovePrefix(TEST_GENERIC) == Some("Test<Asdf>")
  {
    TestPathStrips();
    AsdfStrips();
    TestGenericSplits();
    RemovePrefixGeneric(TEST_PATH, ASDF, '>');
  }

  /** `test_generic_recursive` */
  lemma RemovePrefixGenericRecursiveExample()
    ensures RemovePrefix(TEST_GENERIC_RECURSIVE) == Some("Test<Asdf>")
  {
    TestPathStrips();
    AsdfPathStrips();
    TestGenericSplits();
    RemovePrefixGeneric(TEST_PATH, ASDF_PATH, '>');
  }

  /** `"fn_"` starts at `j`. */
  predicate FnAt(s: string, j: int)
  {
    0 <= j && j + 3 <= |s| && s[j] == 'f' && s[j + 1] == 'n' && s[j + 2] == '_'
  }

  /** `remove_fn_prefix`, i.e. `str::replace("fn_", "")`: one left-to-right pass deleting each
      non-overlapping `"fn_"`. */
  function RemoveFnPrefix(s: string): string
    decreases |s|
  {
    if FnAt(s, 0) then RemoveFnPrefix(s[3..])
    else if s == [] then []
    else [s[0]] + RemoveFnPrefix(s[1..])
  }

  /** The pass only deletes: the result is a subsequence, shorter by a multiple of three, equal
      to the input when it holds no `"fn_"` and strictly shorter when it holds one. */
  lemma {:induction false} RemoveFnPrefixSpec(s: string)
    ensures IsSubsequence(RemoveFnPrefix(s), s)
    ensures (|s| - |RemoveFnPrefix(s)|) % 3 == 0 && |RemoveFnPrefix(s)| <= |s|
    ensures (forall j :: !FnAt(s, j)) ==> RemoveFnPrefix(s) == s
    ensures (exists j :: FnAt(s, j)) ==> |RemoveFnPrefix(s)| < |s|
    decreases |s|
  {
    if FnAt(s, 0) {
      RemoveFnPrefixSpec(s[3..]);
      var r := RemoveFnPrefix(s[3..]);
      SubsequenceOfTail(r, s[2..]);
      assert s[2..][1..] == s[3..];
      SubsequenceOfTail(r, s[1..]);
      assert s[1..][1..] == s[2..];
      SubsequenceOfTail(r, s);
    } else if s != [] {
      RemoveFnPrefixSpec(s[1..]);
      var r := RemoveFnPrefix(s[1..]);
      assert (forall j :: !FnAt(s, j)) ==> forall j :: !FnAt(s[1..], j) by {
        if forall j :: !FnAt(s, j) {
          forall j | FnAt(s[1..], j) ensures false { assert FnAt(s, j + 1); }
        }
      }
      assert (exists j :: FnAt(s, j)) ==> exists j :: FnAt(s[1..], j) by {
        if exists j :: FnAt(s, j) {
          var j :| FnAt(s, j);
          assert j > 0 && FnAt(s[1..], j - 1);
        }
      }
      assert IsSubsequence([s[0]] + r, s) by {
        assert ([s[0]] + r)[0] == s[0] && ([s[0]] + r)[1..] == r;
      }
    }
  }

  /** The pass deletes the leftmost `"fn_"` and keeps everything before it; applied again to
      the rest, and together with the no-match case of `RemoveFnPrefixSpec`, this fixes which
      characters go. */
  lemma {:induction false} RemoveFnPrefixLeftmost(s: string, j: nat)
    requires FnAt(s, j)
    requires forall k :: 0 <= k < j ==> !FnAt(s, k)
    ensures RemoveFnPrefix(s) == s[..j] + RemoveFnPrefix(s[j + 3..])
    decreases j
  {
    if j == 0 {
      assert s[..0] == [];
    } else {
      assert !FnAt(s, 0);
      var t := s[1..];
      assert RemoveFnPrefix(s) == [s[0]] + RemoveFnPrefix(t);
      forall k | 0 <= k < j - 1
        ensures !FnAt(t, k)
      {
        FnAtShift(s, k);
      }
      FnAtShift(s, j - 1);
      RemoveFnPrefixLeftmost(t, j - 1);
      assert t[j + 2..] == s[j + 3..];
      assert [s[0]] + t[..j - 1] == s[..j];
    }
  }

  /** Dropping the first character shifts every `"fn_"` one place to the left. */
  lemma FnAtShift(s: string, k: nat)
    requires s != []
    ensures FnAt(s[1..], k) == FnAt(s, k + 1)
  {
  }

  /** The result is unchanged exactly when the input holds no `"fn_"`. */
  lemma RemoveFnPrefixUnchangedIff(s: string)
    ensures RemoveFnPrefix(s) == s <==> forall j :: !FnAt(s, j)
  {
    RemoveFnPrefixSpec(s);
  }

  /** A single pass can leave a `"fn_"` behind: deleting the middle one from `"ffn_n_"` joins
      its neighbours into a new one. */
  lemma RemoveFnPrefixSinglePass()
    ensures RemoveFnPrefix("ffn_n_") == "fn_"
  {
    assert !FnAt("ffn_n_", 0) && FnAt("fn_n_", 0);
    assert "ffn_n_"[1..] == "fn_n_" && "fn_n_"[3..] == "n_";
    assert !FnAt("n_", 0) && "n_"[1..] == "_" && !FnAt("_", 0) && "_"[1..] == [];
  }
}
