/**
 * The certificate's bound for one module (main of pure_module_bound.py): the largest of the bounds of its parameter
 * cases, and what it promises for every bet.
 */
module ModuleRun {
  import opened Binary
  import opened Bytes
  import opened Evm
  import opened ConcreteOracle
  import opened ModuleBound
  import opened Simulation
  import opened GasBound
  import opened ResolveCalldata
  import LP = LongestPath

  /** What a case knows of a bet: some of its parameter words and their length. */
  datatype Case = Case(params: seq<AVal>, paramsLen: nat)

  function ContextOf(p: Program, selector: nat, betCount: Word, x: Case): Context
    requires x.paramsLen <= 64
  {
    Context(p, AbstractCalldata(selector, betCount, x.params, x.paramsLen))
  }

  /** The largest of the cases' bounds. */
  method Worst(values: seq<LP.Ext>) returns (worst: LP.Ext)
    ensures forall v :: v in values ==> LP.NoMore(v, worst)
    ensures worst == LP.NegInf || worst in values
  {
    worst := LP.NegInf;
    for n := 0 to |values|
      invariant forall i :: 0 <= i < n ==> LP.NoMore(values[i], worst)
      invariant worst == LP.NegInf || worst in values
    {
      if !LP.NoMore(values[n], worst) {
        worst := values[n];
      }
    }
  }

  /** Decodes the runtime code and analyses one case. */
  method BoundCase(code: seq<byte>, selector: nat, betCount: Word, x: Case, limit: nat, fuel: nat)
    returns (p: Program, r: Result)
    requires x.paramsLen <= 64
    ensures p == Program(code, DecodeFrom(code, 0, map[])) && ValidProgram(p)
    ensures r.Bound? ==> Certified(ContextOf(p, selector, betCount, x), None, r)
  {
    p := Decode(code);
    r := Analyse(ContextOf(p, selector, betCount, x), None, limit, fuel);
  }

  /**
   * Whatever the amount, stop limits, bet and random word, a bet of an analysed case resolves within the module's bound:
   * every successful run of the code on the calldata GameHub sends spends no more gas.
   */
  lemma EveryBetResolvesWithin(p: Program, selector: nat, betCount: Word, x: Case, r: Result, worst: LP.Ext, exact: bool,
                               params: seq<byte>, amount: Word, stopGain: Word, stopLoss: Word, betId: Word, word: Word,
                               hash: Hash, n: nat)
    requires selector < 0x1_0000_0000 && x.paramsLen == |params| <= 64 && ParamsMatch(x.params, params)
    requires var c := ContextOf(p, selector, betCount, x);
      Certified(c, None, r) && LP.NoMore(r.value, worst) && JoinsAgree(c, r.best, None, exact) && EntrySizeKept(r)
    requires var cd := EncodeCalldata(selector, params, amount, betCount, stopGain, stopLoss, betId, word);
      && RunAdmissible(ContextOf(p, selector, betCount, x), cd, hash, r.sites, exact, Initial, n)
      && Run(p, cd, hash, Initial, n).Done?
    ensures var cd := EncodeCalldata(selector, params, amount, betCount, stopGain, stopLoss, betId, word);
      worst.Fin? && Run(p, cd, hash, Initial, n).gas <= worst.v
  {
    CalldataInstantiates(selector, x.params, params, amount, betCount, stopGain, stopLoss, betId, word);
    GasBoundHolds(ContextOf(p, selector, betCount, x),
                  EncodeCalldata(selector, params, amount, betCount, stopGain, stopLoss, betId, word), hash, r, exact, n);
  }
}
