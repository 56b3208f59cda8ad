/**
 The prompt registry: registration refuses a second user-prompt fragment for a
 role, so that assembling a prompt never finds two.
 */
module Prompt {
  import opened Tables

  type FragmentId = string
  type Role = string
  type Provider = string

  datatype Context = Context(role: Role, provider: Provider, facts: string)

  /** A runtime condition; absent means always. */
  datatype Condition = Always | When(holds: Context -> bool)

  datatype Category = UserPrompt | System(order: nat)

  datatype Fragment = Fragment(
    id: FragmentId,
    category: Category,
    roles: seq<Role>,
    providers: seq<Provider>,
    condition: Condition)

  /** A fragment reference, which the caller may leave nil. */
  datatype FragmentRef = Nil | Ref(fragment: Fragment)

  datatype Outcome = Done | Panicked

  predicate Matches(f: Fragment, ctx: Context) {
    && (f.roles != [] ==> ctx.role in f.roles)
    && (f.providers != [] ==> ctx.provider in f.providers)
    && (f.condition.When? ==> f.condition.holds(ctx))
  }

  /** A fragment applies unless one of its three gates is set and shut. */
  lemma MatchesExact(f: Fragment, ctx: Context)
    ensures !Matches(f, ctx) <==> (
      || (|f.roles| > 0 && forall r :: r in f.roles ==> r != ctx.role)
      || (|f.providers| > 0 && forall p :: p in f.providers ==> p != ctx.provider)
      || (f.condition != Always && !f.condition.holds(ctx)))
  {
  }

  ghost predicate ClaimsRole(f: Fragment, role: Role) {
    f.category == UserPrompt && role in f.roles
  }

  /** Registering `f` would give some role a second user prompt. */
  ghost predicate Clashes(fragments: map<FragmentId, Fragment>, f: Fragment) {
    exists k :: k in fragments && fragments[k].id != f.id && ShareRole(f, fragments[k])
  }

  ghost predicate ShareRole(f: Fragment, g: Fragment) {
    exists role :: ClaimsRole(f, role) && ClaimsRole(g, role)
  }

  /** Keys agree with IDs, and no role has two user prompts. */
  ghost predicate UniquePrompts(fragments: map<FragmentId, Fragment>) {
    && (forall k :: k in fragments ==> fragments[k].id == k)
    && (forall j, k :: j in fragments && k in fragments && j != k ==> !ShareRole(fragments[j], fragments[k]))
  }

  /** A registration clashes exactly when another user prompt, under another ID, names a role it names. */
  lemma ClashExact(fragments: map<FragmentId, Fragment>, f: Fragment)
    ensures Clashes(fragments, f) <==>
      f.category == UserPrompt && exists k, r :: NamesRole(fragments, k, r) && r in f.roles && fragments[k].id != f.id
  {
    if Clashes(fragments, f) {
      var k :| k in fragments && fragments[k].id != f.id && ShareRole(f, fragments[k]);
      var r :| ClaimsRole(f, r) && ClaimsRole(fragments[k], r);
      assert NamesRole(fragments, k, r);
    }
    if f.category == UserPrompt {
      if k, r :| NamesRole(fragments, k, r) && r in f.roles && fragments[k].id != f.id {
        assert ClaimsRole(f, r) && ClaimsRole(fragments[k], r);
        assert ShareRole(f, fragments[k]);
      }
    }
  }

  ghost predicate NamesRole(fragments: map<FragmentId, Fragment>, k: FragmentId, r: Role) {
    k in fragments && fragments[k].category == UserPrompt && r in fragments[k].roles
  }

  // ----- registration

  /** Registering one fragment: a nil reference or a clash panics and changes nothing. */
  ghost predicate Refused(fragments: map<FragmentId, Fragment>, ref: FragmentRef) {
    ref.Nil? || Clashes(fragments, ref.fragment)
  }

  /** The registry after a list of registrations, which stops at the first panic. */
  ghost function Registered(fragments: map<FragmentId, Fragment>, refs: seq<FragmentRef>): map<FragmentId, Fragment>
    decreases |refs|
  {
    if refs == [] || Refused(fragments, refs[0]) then fragments
    else Registered(fragments[refs[0].fragment.id := refs[0].fragment], refs[1..])
  }

  ghost predicate Panics(fragments: map<FragmentId, Fragment>, refs: seq<FragmentRef>)
    decreases |refs|
  {
    refs != [] && (Refused(fragments, refs[0]) || Panics(fragments[refs[0].fragment.id := refs[0].fragment], refs[1..]))
  }

  lemma RegisterKeepsUnique(fragments: map<FragmentId, Fragment>, f: Fragment)
    requires UniquePrompts(fragments) && !Clashes(fragments, f)
    ensures UniquePrompts(fragments[f.id := f])
  {
    var after := fragments[f.id := f];
    forall j, k | j in after && k in after && j != k ensures !ShareRole(after[j], after[k]) {
      if j == f.id {
        assert fragments[k].id != f.id;
      } else if k == f.id {
        assert ShareRole(after[j], after[k]) <==> ShareRole(f, after[j]);
        assert fragments[j].id != f.id;
      }
    }
  }

  lemma {:induction false} RegisteredStaysUnique(fragments: map<FragmentId, Fragment>, refs: seq<FragmentRef>)
    requires UniquePrompts(fragments)
    ensures UniquePrompts(Registered(fragments, refs))
    decreases |refs|
  {
    if refs != [] && !Refused(fragments, refs[0]) {
      RegisterKeepsUnique(fragments, refs[0].fragment);
      RegisteredStaysUnique(fragments[refs[0].fragment.id := refs[0].fragment], refs[1..]);
    }
  }

  class Registry {
    var fragments: map<FragmentId, Fragment>

    constructor ()
      ensures Valid() && fragments == map[]
    {
      fragments := map[];
    }

    ghost predicate Valid()
      reads this
    {
      UniquePrompts(fragments)
    }

    /** Does another fragment already claim the user prompt of `role`? */
    method RoleTaken(f: Fragment, role: Role) returns (taken: bool)
      ensures taken <==> exists k :: k in fragments && fragments[k].id != f.id && ClaimsRole(fragments[k], role)
    {
      var rest := fragments.Keys;
      while rest != {}
        invariant rest <= fragments.Keys
        invariant forall k :: k in fragments && k !in rest ==>
          fragments[k].id == f.id || !ClaimsRole(fragments[k], role)
        decreases |rest|
      {
        var k :| k in rest;
        if fragments[k].id != f.id && fragments[k].category == UserPrompt && role in fragments[k].roles {
          return true;
        }
        rest := rest - {k};
      }
      return false;
    }

    /** The uniqueness check; it looks at the roles the fragment names. */
    method WouldClash(f: Fragment) returns (clash: bool)
      ensures clash <==> Clashes(fragments, f)
    {
      if f.category != UserPrompt {
        return false;
      }
      for i := 0 to |f.roles|
        invariant forall k :: k in fragments && fragments[k].id != f.id ==>
          forall m :: 0 <= m < i ==> !ClaimsRole(fragments[k], f.roles[m])
      {
        var taken := RoleTaken(f, f.roles[i]);
        if taken {
          assert ClaimsRole(f, f.roles[i]);
          return true;
        }
      }
      return false;
    }

    method Register(ref: FragmentRef) returns (o: Outcome)
      requires Valid()
      modifies this
      ensures Valid()
      ensures o.Panicked? <==> Refused(old(fragments), ref)
      ensures fragments == if o.Panicked? then old(fragments) else old(fragments)[ref.fragment.id := ref.fragment]
    {
      if ref.Nil? {
        return Panicked;
      }
      var clash := WouldClash(ref.fragment);
      if clash {
        return Panicked;
      }
      RegisterKeepsUnique(fragments, ref.fragment);
      fragments := fragments[ref.fragment.id := ref.fragment];
      return Done;
    }

    /** Earlier fragments of a list stay registered when a later one panics. */
    method RegisterAll(refs: seq<FragmentRef>) returns (o: Outcome)
      requires Valid()
      modifies this
      ensures Valid()
      ensures fragments == Registered(old(fragments), refs)
      ensures o.Panicked? <==> Panics(old(fragments), refs)
    {
      for i := 0 to |refs|
        invariant Valid()
        invariant Registered(old(fragments), refs) == Registered(fragments, refs[i..])
        invariant Panics(old(fragments), refs) <==> Panics(fragments, refs[i..])
      {
        assert refs[i..][0] == refs[i] && refs[i..][1..] == refs[i + 1..];
        o := Register(refs[i]);
        if o.Panicked? {
          return;
        }
      }
      return Done;
    }

    /** The fragments that apply to a context, in some order. */
    method MatchingFragments(ctx: Context) returns (matched: seq<Fragment>)
      requires Valid()
      ensures forall f :: f in matched <==> f.id in fragments && fragments[f.id] == f && Matches(f, ctx)
    {
      matched := [];
      var rest := fragments.Keys;
      while rest != {}
        invariant rest <= fragments.Keys
        invariant forall f :: f in matched <==>
          f.id in fragments && f.id !in rest && fragments[f.id] == f && Matches(f, ctx)
        decreases |rest|
      {
        var k :| k in rest;
        if Matches(fragments[k], ctx) {
          matched := matched + [fragments[k]];
        }
        rest := rest - {k};
      }
    }

    /** The user prompt a context gets; two different matches panic. */
    method SelectUserPrompt(ctx: Context) returns (o: Outcome, chosen: FragmentRef)
      requires Valid()
      ensures o.Panicked? <==> Ambiguous(fragments, ctx)
      ensures o.Done? ==> (chosen.Nil? <==> forall k :: !Applies(fragments, k, ctx))
      ensures o.Done? && chosen.Ref? ==>
        Applies(fragments, chosen.fragment.id, ctx) && fragments[chosen.fragment.id] == chosen.fragment
    {
      var matched := MatchingFragments(ctx);
      o, chosen := PickUserPrompt(matched);
      AmbiguityInList(fragments, ctx, matched);
    }
  }

  /** Two user prompts with different IDs are listed. */
  ghost predicate TwoPrompts(matched: seq<Fragment>) {
    exists f, g :: f in matched && g in matched && f.category == UserPrompt && g.category == UserPrompt && f.id != g.id
  }

  /** The assembler's selection loop over the matching fragments. */
  method PickUserPrompt(matched: seq<Fragment>) returns (o: Outcome, chosen: FragmentRef)
    ensures o.Panicked? <==> TwoPrompts(matched)
    ensures o.Done? ==> (chosen.Nil? <==> forall f :: f in matched ==> f.category != UserPrompt)
    ensures o.Done? && chosen.Ref? ==> chosen.fragment in matched && chosen.fragment.category == UserPrompt
  {
    chosen := Nil;
    for i := 0 to |matched|
      invariant chosen.Nil? <==> forall f :: f in matched[..i] ==> f.category != UserPrompt
      invariant chosen.Ref? ==> chosen.fragment in matched && chosen.fragment.category == UserPrompt
      invariant chosen.Ref? ==> forall f :: f in matched[..i] && f.category == UserPrompt ==> f.id == chosen.fragment.id
    {
      var f := matched[i];
      PrefixGrows(matched, i);
      if f.category == UserPrompt {
        if chosen.Nil? {
          chosen := Ref(f);
        }
        if chosen.fragment.id != f.id {
          return Panicked, chosen;
        }
      }
    }
    assert matched[..|matched|] == matched;
    o := Done;
  }

  // ----- why assembly does not panic

  /** The fragment under `k` is a user prompt that matches. */
  ghost predicate Applies(fragments: map<FragmentId, Fragment>, k: FragmentId, ctx: Context) {
    k in fragments && fragments[k].category == UserPrompt && Matches(fragments[k], ctx)
  }

  ghost predicate Ambiguous(fragments: map<FragmentId, Fragment>, ctx: Context) {
    exists j, k :: Applies(fragments, j, ctx) && Applies(fragments, k, ctx) && j != k
  }

  lemma AmbiguityInList(fragments: map<FragmentId, Fragment>, ctx: Context, matched: seq<Fragment>)
    requires UniquePrompts(fragments)
    requires forall f :: f in matched <==> f.id in fragments && fragments[f.id] == f && Matches(f, ctx)
    ensures TwoPrompts(matched) <==> Ambiguous(fragments, ctx)
    ensures (exists f :: f in matched && f.category == UserPrompt) <==> exists k :: Applies(fragments, k, ctx)
  {
    if f, g :| f in matched && g in matched && f.category == UserPrompt && g.category == UserPrompt && f.id != g.id {
      assert Applies(fragments, f.id, ctx) && Applies(fragments, g.id, ctx);
    }
    if j, k :| Applies(fragments, j, ctx) && Applies(fragments, k, ctx) && j != k {
      assert fragments[j] in matched && fragments[k] in matched;
    }
    if f :| f in matched && f.category == UserPrompt {
      assert Applies(fragments, f.id, ctx);
    }
    if k :| Applies(fragments, k, ctx) {
      assert fragments[k] in matched;
    }
  }

  /** A matching user prompt that names no role, beside another one. */
  ghost predicate RolelessBeside(fragments: map<FragmentId, Fragment>, ctx: Context, j: FragmentId, k: FragmentId) {
    Applies(fragments, j, ctx) && fragments[j].roles == [] && Applies(fragments, k, ctx) && j != k
  }

  /**
   After any registrations, assembly finds two user prompts for a context exactly
   when a role-less user prompt applies beside another; registration never
   compares role-less fragments.
   */
  lemma AmbiguousIffRoleless(refs: seq<FragmentRef>, ctx: Context)
    ensures var fragments := Registered(map[], refs);
      Ambiguous(fragments, ctx) <==> exists j, k :: RolelessBeside(fragments, ctx, j, k)
  {
    RegisteredStaysUnique(map[], refs);
    var fragments := Registered(map[], refs);
    if j, k :| Applies(fragments, j, ctx) && Applies(fragments, k, ctx) && j != k {
      if fragments[j].roles != [] && fragments[k].roles != [] {
        assert ClaimsRole(fragments[j], ctx.role) && ClaimsRole(fragments[k], ctx.role);
        assert ShareRole(fragments[j], fragments[k]);
      } else {
        assert RolelessBeside(fragments, ctx, j, k) || RolelessBeside(fragments, ctx, k, j);
      }
    }
  }

  /** So if every user prompt names a role, the assembler's panic is unreachable. */
  lemma NamedRolesNeverPanic(refs: seq<FragmentRef>, ctx: Context)
    requires forall r :: r in refs && r.Ref? && r.fragment.category == UserPrompt ==> r.fragment.roles != []
    ensures !Ambiguous(Registered(map[], refs), ctx)
  {
    AmbiguousIffRoleless(refs, ctx);
    RegisteredFrom(map[], refs);
  }

  lemma {:induction false} RegisteredFrom(fragments: map<FragmentId, Fragment>, refs: seq<FragmentRef>)
    ensures forall k :: k in Registered(fragments, refs) ==>
      (k in fragments && Registered(fragments, refs)[k] == fragments[k]) || Ref(Registered(fragments, refs)[k]) in refs
    decreases |refs|
  {
    if refs != [] && !Refused(fragments, refs[0]) {
      RegisteredFrom(fragments[refs[0].fragment.id := refs[0].fragment], refs[1..]);
    }
  }

  /** Two role-less user prompts register without complaint and make every matching assembly panic. */
  lemma RolelessPairPanics(ctx: Context)
    ensures var a, b := Fragment("a", UserPrompt, [], [], Always), Fragment("b", UserPrompt, [], [], Always);
      !Panics(map[], [Ref(a), Ref(b)]) && Ambiguous(Registered(map[], [Ref(a), Ref(b)]), ctx)
  {
    var a, b := Fragment("a", UserPrompt, [], [], Always), Fragment("b", UserPrompt, [], [], Always);
    var none: map<FragmentId, Fragment> := map[];
    var refs, one := [Ref(a), Ref(b)], none["a" := a];
    var both := one["b" := b];
    assert !Clashes(none, a) && !Clashes(one, b);
    var last := refs[1..];
    assert last == [Ref(b)] && last[1..] == [];
    assert Registered(none, refs) == Registered(one, last) && (Panics(none, refs) <==> Panics(one, last));
    assert Registered(one, last) == Registered(both, []) == both && !Panics(one, last);
    assert Applies(both, "a", ctx) && Applies(both, "b", ctx);
  }
}
