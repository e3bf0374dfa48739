/**
 * The rule header of the explicit-registry backend. Each inclusion undefines
 * XF_INIT_REGISTER, redefines it from the action flag that is set (declare
 * wins over call), undefines both flags and then includes the user's manifest,
 * whose lines are `XF_INIT_REGISTER(f);`.
 */
module RegistryRule {
  import opened Options
  import opened RegistryDefs

  /** A statement that one manifest line expands to. */
  datatype Stmt = ExternDecl(symbol: string) | CallStmt(symbol: string)

  /** The two ways XF_INIT_REGISTER can be defined. */
  datatype Action = Declare | Call

  /** The preprocessor macros the rule header reads and writes. */
  datatype PPState = PPState(declareFlag: bool, callFlag: bool, register: Option<Action>)

  /**
   * The result of one inclusion: the macro state afterwards, and the expanded
   * manifest, or None when no action was set (only a message is emitted and the
   * manifest lines are left unexpanded).
   */
  datatype Inclusion = Inclusion(after: PPState, output: Option<seq<Stmt>>)

  /** One manifest line under a defined rule. */
  function ExpandLine(a: Action, f: string): Stmt
  {
    match a
    case Declare => ExternDecl(WrapperSymbol(f))
    case Call => CallStmt(WrapperSymbol(f))
  }

  /** The manifest under a defined rule: one statement per entry, in manifest order. */
  function Expand(a: Action, manifest: seq<string>): (out: seq<Stmt>)
  {
    seq(|manifest|, i requires 0 <= i < |manifest| => ExpandLine(a, manifest[i]))
  }

  /** The wrapper symbols of the manifest's entries, in manifest order. */
  function WrapperSymbols(manifest: seq<string>): seq<string>
  {
    seq(|manifest|, i requires 0 <= i < |manifest| => WrapperSymbol(manifest[i]))
  }

  /** What a defined action flag selects; declare takes precedence over call. */
  function SelectedAction(s: PPState): Option<Action>
  {
    if s.declareFlag then Some(Declare)
    else if s.callFlag then Some(Call)
    else None
  }

  /** `#include "xf_init_registry_rule.h"` once, over the given manifest. */
  function IncludeRule(s: PPState, manifest: seq<string>): (r: Inclusion)
    ensures !r.after.declareFlag && !r.after.callFlag
    ensures r.after.register == SelectedAction(s)
    ensures r.output.None? <==> !s.declareFlag && !s.callFlag
  {
    var action := SelectedAction(s);
    var after := PPState(false, false, action);
    match action
    case None => Inclusion(after, None)
    case Some(a) => Inclusion(after, Some(Expand(a, manifest)))
  }

  /** Declare is chosen when both flags are set; with neither, nothing expands. */
  lemma DeclareWins(s: PPState, manifest: seq<string>)
    ensures s.declareFlag ==> IncludeRule(s, manifest).output == Some(Expand(Declare, manifest))
    ensures !s.declareFlag && s.callFlag ==> IncludeRule(s, manifest).output == Some(Expand(Call, manifest))
  {
  }

  /** A second inclusion without setting a flag again expands nothing: each pass must set its own. */
  lemma FlagsDoNotCarryOver(s: PPState, manifest: seq<string>)
    ensures IncludeRule(IncludeRule(s, manifest).after, manifest).output.None?
  {
  }

  /**
   * The body of xf_init_explicit_call_registry: define the declare flag and
   * include, then define the call flag and include again.
   */
  function ExplicitCallExpansion(before: PPState, manifest: seq<string>): (out: seq<Stmt>)
    ensures |out| == 2 * |manifest|
    ensures forall i | 0 <= i < |manifest| ::
      out[i] == ExternDecl(WrapperSymbol(manifest[i])) && out[|manifest| + i] == CallStmt(WrapperSymbol(manifest[i]))
  {
    var first := IncludeRule(before.(declareFlag := true), manifest);
    var second := IncludeRule(first.after.(callFlag := true), manifest);
    first.output.value + second.output.value
  }

  /** The symbols called, in order, by the first j statements; declarations call nothing. */
  function CallsUpTo(stmts: seq<Stmt>, j: nat): seq<string>
    requires j <= |stmts|
  {
    if j == 0 then []
    else CallsUpTo(stmts, j - 1) + (match stmts[j - 1]
                                   case ExternDecl(_) => []
                                   case CallStmt(sym) => [sym])
  }

  /** The symbols called, in order, by a sequence of statements. */
  function Calls(stmts: seq<Stmt>): seq<string>
  {
    CallsUpTo(stmts, |stmts|)
  }

  /** The calls of the first j statements depend on those statements only. */
  lemma {:induction false} CallsUpToPrefix(a: seq<Stmt>, b: seq<Stmt>, j: nat)
    requires j <= |a| && j <= |b|
    requires forall i | 0 <= i < j :: a[i] == b[i]
    ensures CallsUpTo(a, j) == CallsUpTo(b, j)
  {
    if j > 0 {
      CallsUpToPrefix(a, b, j - 1);
    }
  }

  /** Calls of a + b past a's end are the calls of b. */
  lemma {:induction false} CallsUpToSuffix(a: seq<Stmt>, b: seq<Stmt>, j: nat)
    requires j <= |b|
    ensures CallsUpTo(a + b, |a| + j) == CallsUpTo(a, |a|) + CallsUpTo(b, j)
  {
    if j == 0 {
      CallsUpToPrefix(a + b, a, |a|);
    } else {
      CallsUpToSuffix(a, b, j - 1);
      assert (a + b)[|a| + j - 1] == b[j - 1];
    }
  }

  /** Running a + b runs a's calls, then b's. */
  lemma CallsAppend(a: seq<Stmt>, b: seq<Stmt>)
    ensures Calls(a + b) == Calls(a) + Calls(b)
  {
    CallsUpToSuffix(a, b, |b|);
  }

  /** A declaration pass calls nothing. */
  lemma {:induction false} CallsOfDeclarePass(manifest: seq<string>, j: nat)
    requires j <= |manifest|
    ensures CallsUpTo(Expand(Declare, manifest), j) == []
  {
    if j > 0 {
      CallsOfDeclarePass(manifest, j - 1);
    }
  }

  /** A call pass calls every wrapper, in manifest order. */
  lemma {:induction false} CallsOfCallPass(manifest: seq<string>, j: nat)
    requires j <= |manifest|
    ensures CallsUpTo(Expand(Call, manifest), j) == WrapperSymbols(manifest[..j])
  {
    if j > 0 {
      CallsOfCallPass(manifest, j - 1);
      assert WrapperSymbols(manifest[..j]) == WrapperSymbols(manifest[..j - 1]) + [WrapperSymbol(manifest[j - 1])];
    }
  }

  /** The two-pass expansion declares every wrapper and then calls every wrapper, whatever the macro state before it. */
  lemma ExplicitCallIsDeclareThenCall(before: PPState, manifest: seq<string>)
    ensures ExplicitCallExpansion(before, manifest) == Expand(Declare, manifest) + Expand(Call, manifest)
  {
  }

  /** The calls of the two-pass expansion are the manifest's wrappers, once each, in manifest order. */
  lemma ExplicitCallCalls(before: PPState, manifest: seq<string>)
    ensures Calls(ExplicitCallExpansion(before, manifest)) == WrapperSymbols(manifest)
  {
    ExplicitCallIsDeclareThenCall(before, manifest);
    CallsAppend(Expand(Declare, manifest), Expand(Call, manifest));
    CallsOfDeclarePass(manifest, |manifest|);
    CallsOfCallPass(manifest, |manifest|);
    assert manifest[..|manifest|] == manifest;
  }

  /** The i-th call of the two-pass expansion runs the wrapper of the i-th manifest entry. */
  lemma ExplicitCallAt(before: PPState, manifest: seq<string>, i: nat)
    requires i < |manifest|
    ensures |Calls(ExplicitCallExpansion(before, manifest))| == |manifest|
    ensures Calls(ExplicitCallExpansion(before, manifest))[i] == WrapperSymbol(manifest[i])
  {
    ExplicitCallCalls(before, manifest);
  }
}
