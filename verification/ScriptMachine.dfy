/** A reference interpreter for the scripts the wallet spends: data pushes, small
    integers, CHECKMULTISIG (with the empty dummy of BIP-147) and the tapscript
    CHECKSIG / CHECKSIGADD pair (BIP-342, "Rules for signature opcodes"). It shares
    nothing with the builders but the opcode numbers. The stack top is the last
    element. */
module ScriptMachine {
  import opened Bytes
  import opened Scripts

  type Stack = seq<bytes>

  /** Whether a signature verifies under a key. */
  type Check = (bytes, bytes) -> bool

  datatype Pushed = Pushed(item: bytes, rest: bytes)

  function ReadItem(b: bytes, n: nat): Option<Pushed> {
    if n > |b| || n > MAX_ELEMENT_SIZE then None else Some(Pushed(b[..n], b[n..]))
  }

  function ReadPush(script: bytes): Option<Pushed>
    requires script != []
  {
    if script[0] <= 0x4b then ReadItem(script[1..], script[0])
    else
      var width := if script[0] == OP_PUSHDATA1 then 1 else if script[0] == OP_PUSHDATA2 then 2 else 4;
      if script[0] > OP_PUSHDATA4 || |script| < 1 + width then None
      else ReadItem(script[1 + width..], FromLE(script[1..1 + width]))
  }

  /** A script of data pushes, as the stack it leaves. */
  function RunPushes(script: bytes, stack: Stack): Option<Stack>
    decreases |script|
  {
    if script == [] then Some(stack)
    else match ReadPush(script)
      case None => None
      case Some(p) => if |p.rest| >= |script| then None else RunPushes(p.rest, stack + [p.item])
  }

  function NumberBytes(n: nat): bytes
    requires n < 0x80
  {
    if n == 0 then [] else [n]
  }

  /** Minimal non-negative one-byte numbers; nothing larger occurs. */
  function ReadNumber(b: bytes): Option<nat> {
    if b == [] then Some(0) else if |b| == 1 && 0 < b[0] < 0x80 then Some(b[0]) else None
  }

  /** The matching of CHECKMULTISIG: from the last signature and the last key down,
      every key is offered to one signature only. */
  function Greedy(check: Check, sigs: seq<bytes>, keys: seq<bytes>): bool
    decreases |keys|
  {
    if sigs == [] then true
    else if |sigs| > |keys| then false
    else if check(sigs[|sigs| - 1], keys[|keys| - 1]) then Greedy(check, sigs[..|sigs| - 1], keys[..|keys| - 1])
    else Greedy(check, sigs, keys[..|keys| - 1])
  }

  function CheckMultisig(check: Check, stack: Stack): Option<Stack> {
    if |stack| < 1 then None
    else match ReadNumber(stack[|stack| - 1])
      case None => None
      case Some(n) =>
        if n > 20 || |stack| < n + 2 then None
        else
          var keys := stack[|stack| - 1 - n..|stack| - 1];
          var below := stack[..|stack| - 1 - n];
          match ReadNumber(below[|below| - 1])
          case None => None
          case Some(m) =>
            if m > n || |below| < m + 2 || below[|below| - 2 - m] != [] then None
            else
              var sigs := below[|below| - 1 - m..|below| - 1];
              Some(below[..|below| - 2 - m] + [NumberBytes(if Greedy(check, sigs, keys) then 1 else 0)])
  }

  /** An empty signature counts as a miss, a wrong one fails the script. */
  function CheckSig(check: Check, stack: Stack): Option<Stack> {
    if |stack| < 2 then None
    else
      var key, sig, below := stack[|stack| - 1], stack[|stack| - 2], stack[..|stack| - 2];
      if sig == [] then Some(below + [NumberBytes(0)])
      else if check(sig, key) then Some(below + [NumberBytes(1)])
      else None
  }

  function CheckSigAdd(check: Check, stack: Stack): Option<Stack> {
    if |stack| < 3 then None
    else
      var key, count, sig, below := stack[|stack| - 1], stack[|stack| - 2], stack[|stack| - 3], stack[..|stack| - 3];
      match ReadNumber(count)
      case None => None
      case Some(n) =>
        if sig == [] then Some(below + [NumberBytes(n)])
        else if n < 0x7f && check(sig, key) then Some(below + [NumberBytes(n + 1)])
        else None
  }

  function Operate(check: Check, tapscript: bool, op: byte, stack: Stack): Option<Stack> {
    if 0x51 <= op <= 0x60 then Some(stack + [NumberBytes(op - 0x50)])
    else if op == OP_CHECKMULTISIG && !tapscript then CheckMultisig(check, stack)
    else if op == OP_CHECKSIG && tapscript then CheckSig(check, stack)
    else if op == OP_CHECKSIGADD && tapscript then CheckSigAdd(check, stack)
    else None
  }

  function Run(check: Check, tapscript: bool, script: bytes, stack: Stack): Option<Stack>
    decreases |script|
  {
    if script == [] then Some(stack)
    else if script[0] <= OP_PUSHDATA4 then
      match ReadPush(script)
      case None => None
      case Some(p) => if |p.rest| >= |script| then None else Run(check, tapscript, p.rest, stack + [p.item])
    else
      match Operate(check, tapscript, script[0], stack)
      case None => None
      case Some(s) => Run(check, tapscript, script[1..], s)
  }

  /** Exactly one element is left, and it is true. */
  predicate Succeeded(r: Option<Stack>) { r == Some([NumberBytes(1)]) }

  /** Spending a P2SH output: the last push of the scriptSig is the script. */
  predicate AcceptsP2sh(hash160: bytes -> Hash20, check: Check, lock: bytes, scriptSig: bytes) {
    match RunPushes(scriptSig, [])
    case None => false
    case Some(stack) =>
      && IsP2sh(lock) && stack != [] && hash160(stack[|stack| - 1]) == lock[2..22]
      && Succeeded(Run(check, false, stack[|stack| - 1], stack[..|stack| - 1]))
  }

  /** Spending a P2WSH output: the last witness item is the script. */
  predicate AcceptsP2wsh(sha256: bytes -> Hash32, check: Check, lock: bytes, witnessStack: seq<bytes>) {
    && IsP2wsh(lock) && witnessStack != []
    && var script, items := witnessStack[|witnessStack| - 1], witnessStack[..|witnessStack| - 1];
    && sha256(script) == lock[2..34] && (forall x :: x in items ==> |x| <= MAX_ELEMENT_SIZE)
    && Succeeded(Run(check, false, script, items))
  }

  // ------------------------------------------------------------------ matching

  /** An order-preserving assignment of signatures to keys. */
  ghost predicate Assigns(check: Check, sigs: seq<bytes>, keys: seq<bytes>, f: seq<nat>) {
    && |f| == |sigs|
    && (forall i :: 0 <= i < |f| ==> f[i] < |keys| && check(sigs[i], keys[f[i]]))
    && (forall i, j :: 0 <= i < j < |f| ==> f[i] < f[j])
  }

  lemma {:induction false} IncreasingReach(f: seq<nat>, bound: nat)
    requires forall i :: 0 <= i < |f| ==> f[i] < bound
    requires forall i, j :: 0 <= i < j < |f| ==> f[i] < f[j]
    ensures |f| <= bound
    decreases |f|
  {
    if f != [] { IncreasingReach(f[..|f| - 1], f[|f| - 1]); }
  }

  /** Without the last pair, or without the last key. */
  lemma AssignsShrink(check: Check, sigs: seq<bytes>, keys: seq<bytes>, f: seq<nat>)
    requires sigs != [] && keys != [] && Assigns(check, sigs, keys, f)
    ensures Assigns(check, sigs[..|sigs| - 1], keys[..|keys| - 1], f[..|f| - 1])
    ensures !check(sigs[|sigs| - 1], keys[|keys| - 1]) ==> Assigns(check, sigs, keys[..|keys| - 1], f)
  {
    assert f[|f| - 1] < |keys|;
  }

  lemma {:induction false} GreedyFinds(check: Check, sigs: seq<bytes>, keys: seq<bytes>, f: seq<nat>)
    requires Assigns(check, sigs, keys, f)
    ensures Greedy(check, sigs, keys)
    decreases |keys|
  {
    if sigs != [] {
      IncreasingReach(f, |keys|);
      AssignsShrink(check, sigs, keys, f);
      if check(sigs[|sigs| - 1], keys[|keys| - 1]) {
        GreedyFinds(check, sigs[..|sigs| - 1], keys[..|keys| - 1], f[..|f| - 1]);
      } else {
        GreedyFinds(check, sigs, keys[..|keys| - 1], f);
      }
    }
  }

  lemma {:induction false} GreedyAssigns(check: Check, sigs: seq<bytes>, keys: seq<bytes>) returns (f: seq<nat>)
    requires Greedy(check, sigs, keys)
    ensures Assigns(check, sigs, keys, f)
    decreases |keys|
  {
    if sigs == [] {
      f := [];
    } else if check(sigs[|sigs| - 1], keys[|keys| - 1]) {
      f := GreedyAssigns(check, sigs[..|sigs| - 1], keys[..|keys| - 1]);
      f := f + [|keys| - 1];
    } else {
      f := GreedyAssigns(check, sigs, keys[..|keys| - 1]);
    }
  }

  /** Greedy matching never misses an assignment: it succeeds exactly when some
      order-preserving one exists. */
  lemma GreedyComplete(check: Check, sigs: seq<bytes>, keys: seq<bytes>)
    ensures Greedy(check, sigs, keys) <==> exists f :: Assigns(check, sigs, keys, f)
  {
    if Greedy(check, sigs, keys) {
      var f := GreedyAssigns(check, sigs, keys);
    }
    if f :| Assigns(check, sigs, keys, f) { GreedyFinds(check, sigs, keys, f); }
  }
}
