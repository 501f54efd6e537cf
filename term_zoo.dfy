/** The term zoo: for each function of a signature, one closed term headed by that function,
    generated by depth-bounded random expansion of its argument types. The random source is a
    parameter: a function from (draw number, bound) to a number, of which the draw uses the
    remainder modulo the bound. */
module TermZoo {
  import opened Wrappers
  import opened Seqs
  import opened AlgebraTerm

  /** How deep generated terms may nest. */
  const MAX_DEPTH: nat := 8
  /** How often generation is attempted per function before giving up. */
  const MAX_TRIES: nat := 100

  /** The resistant id `Function::new` gives a generated application. */
  const NEW_FUNCTION_ID: nat := 0

  /** A function of the signature, by its shape (its implementation is not modelled). */
  datatype FunctionDefinition = FunctionDefinition(shape: FunctionShape)

  /** The signature: all functions, and the candidates for each return type. */
  datatype Signature = Signature(functions: seq<FunctionDefinition>,
                                 functionsByTyp: map<TypeShape, seq<FunctionDefinition>>)

  /** Every candidate listed under a type returns that type. */
  ghost predicate WellTypedSignature(sig: Signature)
  {
    forall typ, k :: typ in sig.functionsByTyp && 0 <= k < |sig.functionsByTyp[typ]| ==>
      sig.functionsByTyp[typ][k].shape.returnType == typ
  }

  /** Some argument type of `shape` has no candidates at all. */
  ghost predicate MissingCandidates(sig: Signature, shape: FunctionShape)
  {
    exists i :: 0 <= i < |shape.argumentTypes| &&
      (shape.argumentTypes[i] !in sig.functionsByTyp || sig.functionsByTyp[shape.argumentTypes[i]] == [])
  }

  /** `t` nests at most `d` levels: a leaf needs one level, an application one more than its
      arguments. */
  ghost predicate DepthAtMost(t: Term, d: nat)
    decreases t
  {
    d >= 1 &&
    match t
    case Variable(_) => true
    case Application(_, args) => forall k :: 0 <= k < |args| ==> DepthAtMost(args[k], d - 1)
  }

  /** `t` contains no variable. */
  ghost predicate Closed(t: Term)
    decreases t
  {
    match t
    case Variable(_) => false
    case Application(_, args) => forall k :: 0 <= k < |args| ==> Closed(args[k])
  }

  /** Each application has one argument per argument type, each of that type. */
  ghost predicate WellTyped(t: Term)
    decreases t
  {
    match t
    case Variable(_) => true
    case Application(f, args) =>
      |args| == |f.shape.argumentTypes| &&
      forall k :: 0 <= k < |args| ==> GetTypeShape(args[k]) == f.shape.argumentTypes[k] && WellTyped(args[k])
  }

  /** The random source: `Below(n)` draws a number under `n`. */
  class Rand {
    const oracle: (nat, nat) -> nat
    var draws: nat

    constructor (oracle: (nat, nat) -> nat)
      ensures this.oracle == oracle && draws == 0
    {
      this.oracle := oracle;
      draws := 0;
    }

    method Below(n: nat) returns (k: nat)
      requires n > 0
      modifies this
      ensures k < n && k == oracle(old(draws), n) % n && draws == old(draws) + 1
    {
      k := oracle(draws, n) % n;
      draws := draws + 1;
    }

    /** `Choosable::choose`: None for an empty list, otherwise a drawn element. */
    method Choose<T>(s: seq<T>) returns (r: Option<T>)
      modifies this
      ensures s == [] ==> r == None && draws == old(draws)
      ensures s != [] ==> r.Some? && r.value in s && draws == old(draws) + 1
    {
      if s == [] {
        r := None;
      } else {
        var k := Below(|s|);
        r := Some(s[k]);
      }
    }
  }

  /** `generate_term`: None at depth zero; otherwise for each argument type in order, a drawn
      candidate generated one level shallower, failing as soon as a type has no candidates or a
      subterm fails; on success an application of `def` to the subterms. */
  method GenerateTerm(sig: Signature, def: FunctionDefinition, depth: nat, rand: Rand) returns (r: Option<Term>)
    modifies rand
    ensures depth == 0 ==> r.None?
    ensures MissingCandidates(sig, def.shape) ==> r.None?
    ensures r.Some? ==> r.value.Application? && r.value.func == Func(def.shape, NEW_FUNCTION_ID)
    ensures r.Some? ==> |r.value.args| == |def.shape.argumentTypes|
    ensures r.Some? ==> DepthAtMost(r.value, depth) && Closed(r.value)
    ensures r.Some? && WellTypedSignature(sig) ==> WellTyped(r.value)
    decreases depth
  {
    if depth == 0 {
      return None;
    }
    var required := def.shape.argumentTypes;
    var subterms: seq<Term> := [];
    for i := 0 to |required|
      invariant |subterms| == i
      invariant forall k :: 0 <= k < i ==> DepthAtMost(subterms[k], depth - 1) && Closed(subterms[k])
      invariant forall k :: 0 <= k < i ==> required[k] in sig.functionsByTyp && sig.functionsByTyp[required[k]] != []
      invariant WellTypedSignature(sig) ==>
                  forall k :: 0 <= k < i ==> GetTypeShape(subterms[k]) == required[k] && WellTyped(subterms[k])
    {
      var typ := required[i];
      if typ !in sig.functionsByTyp {
        return None;
      }
      var possibility := rand.Choose(sig.functionsByTyp[typ]);
      if possibility.None? {
        return None;
      }
      var subterm := GenerateTerm(sig, possibility.value, depth - 1, rand);
      if subterm.None? {
        return None;
      }
      subterms := subterms + [subterm.value];
    }
    return Some(Application(Func(def.shape, NEW_FUNCTION_ID), subterms));
  }

  /** The per-function retry loop of `generate`: up to `MAX_TRIES` attempts at `MAX_DEPTH`,
      stopping at the first success. */
  method GenerateWithRetries(sig: Signature, def: FunctionDefinition, rand: Rand)
    returns (r: Option<Term>, ghost attempts: nat)
    modifies rand
    ensures 1 <= attempts <= MAX_TRIES
    ensures r.None? ==> attempts == MAX_TRIES
    ensures MissingCandidates(sig, def.shape) ==> r.None?
    ensures r.Some? ==> r.value.Application? && r.value.func == Func(def.shape, NEW_FUNCTION_ID)
    ensures r.Some? ==> |r.value.args| == |def.shape.argumentTypes|
    ensures r.Some? ==> DepthAtMost(r.value, MAX_DEPTH) && Closed(r.value)
    ensures r.Some? && WellTypedSignature(sig) ==> WellTyped(r.value)
  {
    var counter: nat := MAX_TRIES;
    attempts := 0;
    r := None;
    while true
      invariant counter + attempts == MAX_TRIES
      invariant r.None?
      decreases counter
    {
      if counter == 0 {
        break;
      }
      counter := counter - 1;
      attempts := attempts + 1;
      r := GenerateTerm(sig, def, MAX_DEPTH, rand);
      if r.Some? {
        break;
      }
    }
  }

  datatype TermZoo = TermZoo(terms: seq<Term>)
  {
    /** `terms` */
    function Terms(): seq<Term>
    {
      terms
    }
  }

  /** `generate`: at most one term per signature function, kept in signature order; each is a
      closed application of its function, nested at most `MAX_DEPTH` deep, and well typed when
      the signature is. `origins` gives the function each term came from. */
  method Generate(sig: Signature, rand: Rand) returns (zoo: TermZoo, ghost origins: seq<nat>)
    modifies rand
    ensures |origins| == |zoo.Terms()| <= |sig.functions|
    ensures forall a, b :: 0 <= a < b < |origins| ==> origins[a] < origins[b]
    ensures forall k :: 0 <= k < |origins| ==>
              origins[k] < |sig.functions| &&
              zoo.Terms()[k].Application? &&
              zoo.Terms()[k].func == Func(sig.functions[origins[k]].shape, NEW_FUNCTION_ID) &&
              DepthAtMost(zoo.Terms()[k], MAX_DEPTH) && Closed(zoo.Terms()[k])
    ensures WellTypedSignature(sig) ==> forall k :: 0 <= k < |zoo.Terms()| ==> WellTyped(zoo.Terms()[k])
    ensures forall i :: 0 <= i < |sig.functions| && MissingCandidates(sig, sig.functions[i].shape) ==> i !in origins
  {
    var terms: seq<Term> := [];
    origins := [];
    for i := 0 to |sig.functions|
      invariant |origins| == |terms| <= i
      invariant forall a, b :: 0 <= a < b < |origins| ==> origins[a] < origins[b]
      invariant forall k :: 0 <= k < |origins| ==>
                  origins[k] < i &&
                  terms[k].Application? &&
                  terms[k].func == Func(sig.functions[origins[k]].shape, NEW_FUNCTION_ID) &&
                  DepthAtMost(terms[k], MAX_DEPTH) && Closed(terms[k])
      invariant WellTypedSignature(sig) ==> forall k :: 0 <= k < |terms| ==> WellTyped(terms[k])
      invariant forall j :: 0 <= j < i && MissingCandidates(sig, sig.functions[j].shape) ==> j !in origins
    {
      var term, _ := GenerateWithRetries(sig, sig.functions[i], rand);
      if term.Some? {
        terms := terms + [term.value];
        origins := origins + [i];
      }
    }
    zoo := TermZoo(terms);
  }

  /** `choose_filtered`: a drawn term among those the filter accepts, None when it accepts none. */
  method ChooseFiltered(zoo: TermZoo, filter: Term -> bool, rand: Rand) returns (r: Option<Term>)
    modifies rand
    ensures r.None? <==> forall k :: 0 <= k < |zoo.Terms()| ==> !filter(zoo.Terms()[k])
    ensures r.Some? ==> r.value in zoo.Terms() && filter(r.value)
  {
    var filtered := Filter(zoo.Terms(), filter);
    r := rand.Choose(filtered);
    if r.Some? {
      FilterMembers(zoo.Terms(), filter, r.value);
    }
    if filtered == [] {
      forall k | 0 <= k < |zoo.Terms()| ensures !filter(zoo.Terms()[k]) {
        FilterMembers(zoo.Terms(), filter, zoo.Terms()[k]);
      }
    } else {
      FilterMembers(zoo.Terms(), filter, filtered[0]);
    }
  }
}
