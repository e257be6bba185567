/** Day 5, "Supply Stacks": a drawing of crate stacks, a label line, and a list
    of "move Q from F to T" operations. Each operation cuts the top Q crates
    off stack F and appends them to stack T in reverse order; the answer is
    the top crate of every stack after all operations. */
module SupplyStacks {
  import opened Wrappers
  import opened Text
  import opened Decimal
  import opened MapSums
  import opened SeqOps

  /** Stacks keyed from 0; the last element of a stack is its top crate. */
  type Cargo = map<nat, seq<string>>

  /** `CargoOperation`: move `quantity` crates from stack `from` to stack `to`
      (both counted from 1). */
  datatype CargoOperation = CargoOperation(quantity: nat, from: nat, to: nat)

  /** `s` without its whitespace is `t`. */
  predicate StripsTo(s: string, t: string) {
    if s == [] then t == []
    else if IsWhitespace(s[0]) then StripsTo(s[1..], t)
    else t != [] && t[0] == s[0] && StripsTo(s[1..], t[1..])
  }

  lemma {:induction false} StripsToRemoveWhitespace(s: string, t: string)
    ensures StripsTo(s, t) <==> RemoveWhitespace(s) == t
  {
    if s != [] {
      if IsWhitespace(s[0]) {
        StripsToRemoveWhitespace(s[1..], t);
      } else if t != [] {
        StripsToRemoveWhitespace(s[1..], t[1..]);
        assert RemoveWhitespace(s) == [s[0]] + RemoveWhitespace(s[1..]);
        if RemoveWhitespace(s) == t {
          assert t[1..] == RemoveWhitespace(s[1..]);
        }
      }
    }
  }

  /** The stack-label line: its non-whitespace characters are "123456789". */
  predicate IsLabel(line: string) {
    StripsTo(line, "123456789")
  }

  /** A label line is one whose whitespace-separated words, collected into
      one string, read "123456789". */
  lemma IsLabelWords(line: string)
    ensures IsLabel(line) <==> Concat(Words(line)) == "123456789"
  {
    StripsToRemoveWhitespace(line, "123456789");
    ConcatWords(line);
  }

  /** Which lines are label lines. */
  function LabelMarks(lines: seq<string>): (marks: seq<bool>)
    ensures |marks| == |lines|
    ensures forall i | 0 <= i < |lines| :: marks[i] == IsLabel(lines[i])
  {
    seq(|lines|, i requires 0 <= i < |lines| => IsLabel(lines[i]))
  }

  /** A line kept for parsing: neither blank nor marked as a label line. */
  function Keep(line: string, isLabel: bool): seq<string> {
    if line == "" || isLabel then [] else [line]
  }

  /** The lines kept for parsing among lines `lo` to `hi - 1`, in order. */
  function Kept(lines: seq<string>, marks: seq<bool>, lo: nat, hi: nat): (r: seq<string>)
    requires |marks| == |lines| && lo <= hi <= |lines|
    ensures |r| <= hi - lo
    decreases hi
  {
    if hi == lo then [] else Kept(lines, marks, lo, hi - 1) + Keep(lines[hi - 1], marks[hi - 1])
  }

  /** The position of the first marked line, or the number of lines if none. */
  function FirstMarked(marks: seq<bool>): (f: nat)
    ensures f <= |marks|
    ensures f < |marks| ==> marks[f]
    ensures forall i | 0 <= i < f :: !marks[i]
  {
    if marks == [] then 0
    else if marks[0] then 0
    else 1 + FirstMarked(marks[1..])
  }

  /** The non-blank lines before the first label line. */
  function CompositionLines(lines: seq<string>): seq<string> {
    var marks := LabelMarks(lines);
    Kept(lines, marks, 0, FirstMarked(marks))
  }

  /** The non-blank, non-label lines after the first label line. */
  function OperationLines(lines: seq<string>): seq<string> {
    var marks := LabelMarks(lines);
    Kept(lines, marks, FirstMarked(marks), |lines|)
  }

  /** The composition lines and the operation lines together are all the
      non-blank, non-label lines, in order. */
  lemma SplitInputComplete(lines: seq<string>)
    ensures CompositionLines(lines) + OperationLines(lines) == Kept(lines, LabelMarks(lines), 0, |lines|)
  {
    var marks := LabelMarks(lines);
    KeptConcat(lines, marks, 0, FirstMarked(marks), |lines|);
  }

  lemma KeptNext(lines: seq<string>, marks: seq<bool>, lo: nat, k: nat)
    requires |marks| == |lines| && lo <= k < |lines|
    ensures Kept(lines, marks, lo, k + 1) == Kept(lines, marks, lo, k) + Keep(lines[k], marks[k])
  {
  }

  lemma {:induction false} KeptConcat(lines: seq<string>, marks: seq<bool>, lo: nat, mid: nat, hi: nat)
    requires |marks| == |lines| && lo <= mid <= hi <= |lines|
    ensures Kept(lines, marks, lo, mid) + Kept(lines, marks, mid, hi) == Kept(lines, marks, lo, hi)
    decreases hi
  {
    if hi == mid {
      assert Kept(lines, marks, lo, mid) + [] == Kept(lines, marks, lo, mid);
    } else {
      KeptConcat(lines, marks, lo, mid, hi - 1);
    }
  }

  /** The line loop of `main`: the non-blank lines before the first label line
      describe the stacks, the non-blank, non-label lines after it are the
      operations; label lines after the first are skipped as well. */
  method SplitInput(lines: seq<string>) returns (composition: seq<string>, operations: seq<string>)
    ensures composition == CompositionLines(lines)
    ensures operations == OperationLines(lines)
  {
    composition, operations := [], [];
    var processingOperations := false;
    for k := 0 to |lines|
      invariant SplitSoFar(lines, k, processingOperations, composition, operations)
    {
      ghost var before := (processingOperations, composition, operations);
      processingOperations, composition, operations :=
        RouteLine(lines[k], processingOperations, composition, operations);
      SplitSoFarNext(lines, k, before.0, before.1, before.2);
    }
    SplitSoFarDone(lines, processingOperations, composition, operations);
  }

  /** The line loop's state after `k` lines: before the first label line all
      kept lines are in the composition; after it the composition is complete
      and the operations hold the kept lines since. */
  ghost predicate SplitSoFar(lines: seq<string>, k: nat, processing: bool,
                             composition: seq<string>, operations: seq<string>)
    requires k <= |lines|
  {
    var marks := LabelMarks(lines);
    var f := FirstMarked(marks);
    && (processing <==> f < k)
    && (!processing ==> composition == Kept(lines, marks, 0, k) && operations == [])
    && (processing ==> composition == Kept(lines, marks, 0, f) && operations == Kept(lines, marks, f, k))
  }

  lemma SplitSoFarNext(lines: seq<string>, k: nat, processing: bool,
                       composition: seq<string>, operations: seq<string>)
    requires k < |lines| && SplitSoFar(lines, k, processing, composition, operations)
    ensures var isLabel := IsLabel(lines[k]);
            SplitSoFar(lines, k + 1, processing || isLabel,
                       if processing then composition else composition + Keep(lines[k], isLabel),
                       if processing then operations + Keep(lines[k], isLabel) else operations)
  {
    var marks := LabelMarks(lines);
    KeptNext(lines, marks, 0, k);
    if FirstMarked(marks) <= k {
      KeptNext(lines, marks, FirstMarked(marks), k);
    }
  }

  lemma SplitSoFarDone(lines: seq<string>, processing: bool, composition: seq<string>, operations: seq<string>)
    requires SplitSoFar(lines, |lines|, processing, composition, operations)
    ensures composition == CompositionLines(lines)
    ensures operations == OperationLines(lines)
  {
  }

  /** One pass of the line loop: a label line switches to the operations, a
      blank line is skipped, any other line goes to the list being filled. */
  method RouteLine(ln: string, processing: bool, composition: seq<string>, operations: seq<string>)
    returns (processingOperations: bool, newComposition: seq<string>, newOperations: seq<string>)
    ensures processingOperations == (processing || IsLabel(ln))
    ensures processing ==> newComposition == composition && newOperations == operations + Keep(ln, IsLabel(ln))
    ensures !processing ==> newComposition == composition + Keep(ln, IsLabel(ln)) && newOperations == operations
  {
    processingOperations, newComposition, newOperations := processing, composition, operations;
    if IsLabel(ln) {
      processingOperations := true;
      return;
    }
    if ln == "" {
      return;
    }
    if processingOperations {
      newOperations := newOperations + [ln];
    } else {
      newComposition := newComposition + [ln];
    }
  }

  /** A crate token with its brackets removed. */
  function CrateName(token: string): string {
    RemoveChar(RemoveChar(token, '['), ']')
  }

  /** The crate that a drawing line contributes to the stack keyed `idx`: the
      line is split at single spaces and the `idx`-th token is taken, unless it
      is missing or nothing but brackets. */
  function CrateAt(line: string, idx: nat): (c: seq<string>)
    ensures |c| <= 1
    ensures forall i | 0 <= i < |c| :: c[i] != []
  {
    TokenCrate(Split(line, ' '), idx)
  }

  /** The crate named by the `idx`-th token, if there is one. */
  function TokenCrate(tokens: seq<string>, idx: nat): seq<string> {
    if idx < |tokens| && CrateName(tokens[idx]) != [] then [CrateName(tokens[idx])] else []
  }

  /** The crates of stack `idx` in the first `n` drawing lines, from the
      first line down. */
  function Column(lines: seq<string>, n: nat, idx: nat): (c: seq<string>)
    requires n <= |lines|
    ensures |c| <= n
  {
    if n == 0 then [] else Column(lines, n - 1, idx) + CrateAt(lines[n - 1], idx)
  }

  /** The stack under a key, empty when the key is absent. */
  function StackOf(cargo: Cargo, idx: nat): seq<string> {
    if idx in cargo then cargo[idx] else []
  }

  /** Crates are keyed by token position, not by drawing column: in a line
      such as "    [D]", each of the four leading spaces ends a token, so the
      crate in the second column lands at key 4. */
  lemma TokenPositionKeying()
    ensures CrateAt("    [D]", 4) == ["D"]
    ensures CrateAt("    [D]", 1) == []
  {
    SplitLeadingSpaces();
    CrateNameD();
    assert CrateName("") == "";
  }

  lemma SplitLeadingSpaces()
    ensures Split("    [D]", ' ') == ["", "", "", "", "[D]"]
  {
    var tokens := ["", "", "", "", "[D]"];
    assert Join(tokens, " ") == "    [D]" by {
      assert Join(tokens[4..], " ") == "[D]";
      assert Join(tokens[3..], " ") == " [D]";
      assert Join(tokens[2..], " ") == "  [D]";
      assert Join(tokens[1..], " ") == "   [D]";
    }
    SplitJoin(tokens, ' ');
  }

  lemma CrateNameD()
    ensures CrateName("[D]") == "D"
  {
    assert RemoveChar("[D]", '[') == "D]" by {
      assert RemoveChar("D]", '[') == "D]" by {
        assert RemoveChar("]", '[') == "]";
      }
    }
    assert RemoveChar("D]", ']') == "D" by {
      assert RemoveChar("]", ']') == "";
    }
  }

  /** Pushing a crate onto one stack, creating the stack if needed, changes
      that stack only. */
  lemma PushCrate(cargo: Cargo, i: nat, crate: string)
    ensures var pushed := if i in cargo then cargo[i := cargo[i] + [crate]] else cargo[i := [crate]];
      forall idx: nat :: StackOf(pushed, idx) == StackOf(cargo, idx) + (if idx == i then [crate] else [])
  {
  }

  /** `load_cargo_composition`: a stack for every token position at which some
      drawing line has a crate, listed top first while reading and then
      reversed so that its top crate is last. */
  method LoadCargoComposition(lines: seq<string>) returns (cargo: Cargo)
    ensures forall idx: nat :: idx in cargo <==> Column(lines, |lines|, idx) != []
    ensures forall idx | idx in cargo :: cargo[idx] == Reverse(Column(lines, |lines|, idx))
  {
    cargo := map[];
    for k := 0 to |lines|
      invariant forall idx: nat :: StackOf(cargo, idx) == Column(lines, k, idx)
      invariant forall idx | idx in cargo :: cargo[idx] != []
    {
      cargo := LoadCargoRow(cargo, lines[k]);
    }
    ghost var loaded := cargo;
    cargo := ReverseStacks(cargo);
    forall idx: nat ensures idx in cargo <==> Column(lines, |lines|, idx) != [] {
      assert StackOf(loaded, idx) == Column(lines, |lines|, idx);
    }
    forall idx | idx in cargo ensures cargo[idx] == Reverse(Column(lines, |lines|, idx)) {
      assert StackOf(loaded, idx) == Column(lines, |lines|, idx);
    }
  }

  /** The body of the row loop: token `k`, when it names a crate, is pushed
      onto stack `k`, created if missing. */
  method LoadCrate(cargo: Cargo, cargoRow: seq<string>, k: nat) returns (next: Cargo)
    requires k < |cargoRow| && forall idx | idx in cargo :: cargo[idx] != []
    ensures forall idx: nat :: StackOf(next, idx) == StackOf(cargo, idx) + (if idx == k then TokenCrate(cargoRow, k) else [])
    ensures forall idx | idx in next :: next[idx] != []
  {
    next := cargo;
    var crate := CrateName(cargoRow[k]);
    if crate == "" {
      return;
    }
    PushCrate(cargo, k, crate);
    if k in cargo {
      next := cargo[k := cargo[k] + [crate]];
    } else {
      next := cargo[k := [crate]];
    }
  }

  /** The inner loop of `load_cargo_composition`: every crate of one drawing
      line pushed onto the stack keyed by its token position. */
  method LoadCargoRow(loaded: Cargo, line: string) returns (cargo: Cargo)
    requires forall idx | idx in loaded :: loaded[idx] != []
    ensures forall idx: nat :: StackOf(cargo, idx) == StackOf(loaded, idx) + CrateAt(line, idx)
    ensures forall idx | idx in cargo :: cargo[idx] != []
  {
    cargo := loaded;
    var cargoRow := Split(line, ' ');
    for cargoIdx := 0 to |cargoRow|
      invariant forall idx: nat ::
        StackOf(cargo, idx) == StackOf(loaded, idx) + (if idx < cargoIdx then TokenCrate(cargoRow, idx) else [])
      invariant forall idx | idx in cargo :: cargo[idx] != []
    {
      cargo := LoadCrate(cargo, cargoRow, cargoIdx);
    }
    forall idx: nat ensures StackOf(cargo, idx) == StackOf(loaded, idx) + CrateAt(line, idx) {
      assert CrateAt(line, idx) == TokenCrate(cargoRow, idx);
    }
  }

  /** The closing loop of `load_cargo_composition`: every stack reversed in
      place, so that its top crate comes last. */
  method ReverseStacks(loaded: Cargo) returns (cargo: Cargo)
    ensures cargo.Keys == loaded.Keys
    ensures forall idx | idx in cargo :: cargo[idx] == Reverse(loaded[idx])
  {
    cargo := loaded;
    var rest := cargo.Keys;
    while rest != {}
      invariant rest <= cargo.Keys && cargo.Keys == loaded.Keys
      invariant forall idx | idx in rest :: cargo[idx] == loaded[idx]
      invariant forall idx | idx in cargo && idx !in rest :: cargo[idx] == Reverse(loaded[idx])
      decreases rest
    {
      var idx :| idx in rest;
      cargo := cargo[idx := Reverse(cargo[idx])];
      rest := rest - {idx};
    }
  }

  /** The fixed text of an operation line. */
  function OperationText(op: CargoOperation): string {
    Join(["move", ToDecimal(op.quantity), "from", ToDecimal(op.from), "to", ToDecimal(op.to)], " ")
  }

  /** One operation line of the shape "move Q from F to T" with decimal Q, F, T. */
  function ParseOperation(line: string): (r: Option<CargoOperation>)
    ensures var t := Split(line, ' ');
      r.Some? <==> (|t| == 6 && t[0] == "move" && t[2] == "from" && t[4] == "to" &&
                    ParseDigits(t[1]).Some? && ParseDigits(t[3]).Some? && ParseDigits(t[5]).Some?)
    ensures var t := Split(line, ' ');
      r.Some? ==> r.value == CargoOperation(ParseDigits(t[1]).value, ParseDigits(t[3]).value, ParseDigits(t[5]).value)
  {
    var t := Split(line, ' ');
    if |t| == 6 && t[0] == "move" && t[2] == "from" && t[4] == "to" then
      match (ParseDigits(t[1]), ParseDigits(t[3]), ParseDigits(t[5]))
      case (Some(q), Some(f), Some(d)) => Some(CargoOperation(q, f, d))
      case _ => None
    else None
  }

  lemma NoSpaceInDecimal(n: nat)
    ensures ' ' !in ToDecimal(n)
  {
    var s := ToDecimal(n);
    assert forall i | 0 <= i < |s| :: s[i] != ' ';
  }

  /** Every operation reads back from its text. */
  lemma ParseOperationText(op: CargoOperation)
    ensures ParseOperation(OperationText(op)) == Some(op)
  {
    var parts := ["move", ToDecimal(op.quantity), "from", ToDecimal(op.from), "to", ToDecimal(op.to)];
    NoSpaceInDecimal(op.quantity);
    NoSpaceInDecimal(op.from);
    NoSpaceInDecimal(op.to);
    SplitJoin(parts, ' ');
    ParseToDecimal(op.quantity);
    ParseToDecimal(op.from);
    ParseToDecimal(op.to);
  }

  /** `load_cargo_operations`: one operation per line, in order; a line that
      does not match stops the program. */
  method LoadCargoOperations(lines: seq<string>) returns (r: Option<seq<CargoOperation>>)
    ensures r.Some? <==> forall i | 0 <= i < |lines| :: ParseOperation(lines[i]).Some?
    ensures r.Some? ==> |r.value| == |lines|
    ensures r.Some? ==> forall i | 0 <= i < |lines| :: r.value[i] == ParseOperation(lines[i]).value
  {
    var operations: seq<CargoOperation> := [];
    for k := 0 to |lines|
      invariant |operations| == k
      invariant forall i | 0 <= i < k :: ParseOperation(lines[i]).Some?
      invariant forall i | 0 <= i < k :: operations[i] == ParseOperation(lines[i]).value
    {
      var parsed := ParseOperation(lines[k]);
      if parsed.None? {
        return None;
      }
      operations := operations + [parsed.value];
    }
    return Some(operations);
  }

  /** One operation of `execute_cargo_operations`: the top `quantity` crates of
      stack `from` are cut off and put on stack `to` in reverse order. A stack
      number of 0, a missing stack, or too few crates stops the program. */
  function ApplyOperation(cargo: Cargo, op: CargoOperation): (r: Option<Cargo>)
    ensures r.Some? <==>
      && op.from >= 1 && op.from - 1 in cargo
      && op.quantity <= |cargo[op.from - 1]|
      && op.to >= 1 && op.to - 1 in cargo
    ensures r.Some? ==> r.value.Keys == cargo.Keys
  {
    if op.from == 0 || op.from - 1 !in cargo then None
    else
      var source := cargo[op.from - 1];
      if op.quantity > |source| then None
      else
        var keep := source[..|source| - op.quantity];
        var moved := source[|source| - op.quantity..];
        var afterTake := cargo[op.from - 1 := keep];
        if op.to == 0 || op.to - 1 !in afterTake then None
        else Some(afterTake[op.to - 1 := afterTake[op.to - 1] + Reverse(moved)])
  }

  /** Between distinct stacks, a move leaves the source with its lower crates,
      puts the removed top crates on the destination top crate first, and
      touches no other stack. */
  lemma MoveEffect(cargo: Cargo, op: CargoOperation)
    requires ApplyOperation(cargo, op).Some? && op.from != op.to
    ensures var after := ApplyOperation(cargo, op).value;
      var source := cargo[op.from - 1];
      && after[op.from - 1] == source[..|source| - op.quantity]
      && after[op.to - 1] == cargo[op.to - 1] + Reverse(source[|source| - op.quantity..])
      && forall k | k in cargo && k != op.from - 1 && k != op.to - 1 :: after[k] == cargo[k]
  {
  }

  /** The number of crates on all stacks together. */
  ghost function CrateCount(cargo: Cargo): int {
    Total(Sizes(cargo))
  }

  ghost function Sizes(cargo: Cargo): map<nat, int> {
    map k | k in cargo :: |cargo[k]|
  }

  lemma CrateCountUpdate(cargo: Cargo, k: nat, s: seq<string>)
    requires k in cargo
    ensures CrateCount(cargo[k := s]) == CrateCount(cargo) - |cargo[k]| + |s|
  {
    TotalUpdate(Sizes(cargo), k, |s|);
    assert Sizes(cargo[k := s]) == Sizes(cargo)[k := |s|];
  }

  /** A move neither creates nor destroys crates, also when it moves crates
      from a stack onto itself. */
  lemma MovePreservesCount(cargo: Cargo, op: CargoOperation)
    requires ApplyOperation(cargo, op).Some?
    ensures CrateCount(ApplyOperation(cargo, op).value) == CrateCount(cargo)
  {
    var source := cargo[op.from - 1];
    var keep := source[..|source| - op.quantity];
    var moved := source[|source| - op.quantity..];
    var afterTake := cargo[op.from - 1 := keep];
    CrateCountUpdate(cargo, op.from - 1, keep);
    CrateCountUpdate(afterTake, op.to - 1, afterTake[op.to - 1] + Reverse(moved));
  }

  /** The operations applied one after another, failing at the first that fails. */
  function ApplyAll(cargo: Cargo, ops: seq<CargoOperation>): Option<Cargo> {
    if ops == [] then Some(cargo)
    else
      match ApplyOperation(cargo, ops[0])
      case None => None
      case Some(next) => ApplyAll(next, ops[1..])
  }

  lemma ApplyAllStep(cargo: Cargo, ops: seq<CargoOperation>)
    requires ops != []
    ensures ApplyAll(cargo, ops) ==
      if ApplyOperation(cargo, ops[0]).None? then None
      else ApplyAll(ApplyOperation(cargo, ops[0]).value, ops[1..])
  {
  }

  /** A whole rearrangement keeps the stack keys and the number of crates. */
  lemma {:induction false} ApplyAllPreserves(cargo: Cargo, ops: seq<CargoOperation>)
    requires ApplyAll(cargo, ops).Some?
    ensures ApplyAll(cargo, ops).value.Keys == cargo.Keys
    ensures CrateCount(ApplyAll(cargo, ops).value) == CrateCount(cargo)
  {
    if ops != [] {
      var next := ApplyOperation(cargo, ops[0]).value;
      MovePreservesCount(cargo, ops[0]);
      ApplyAllPreserves(next, ops[1..]);
    }
  }

  /** `execute_cargo_operations`: one operation at a time, the top crates are
      cut off one stack, reversed and put on another; a missing stack or a
      short one stops the program. */
  method ExecuteCargoOperations(initial: Cargo, ops: seq<CargoOperation>) returns (r: Option<Cargo>)
    ensures r == ApplyAll(initial, ops)
  {
    var cargoState: Cargo := initial;
    for k := 0 to |ops|
      invariant ApplyAll(initial, ops) == ApplyAll(cargoState, ops[k..])
    {
      ApplyAllStep(cargoState, ops[k..]);
      assert ops[k..][0] == ops[k] && ops[k..][1..] == ops[k + 1..];
      var op, before := ops[k], cargoState;
      if op.from == 0 || op.from - 1 !in cargoState {
        assert ApplyOperation(before, op).None?;
        return None;
      }
      var cargoFrom := cargoState[op.from - 1];
      if op.quantity > |cargoFrom| {
        assert ApplyOperation(before, op).None?;
        return None;
      }
      var cargoToKeep := cargoFrom[..|cargoFrom| - op.quantity];
      var cargoToMove := cargoFrom[|cargoFrom| - op.quantity..];
      cargoState := cargoState[op.from - 1 := cargoToKeep];
      if op.to == 0 || op.to - 1 !in cargoState {
        assert ApplyOperation(before, op).None?;
        return None;
      }
      cargoToMove := Reverse(cargoToMove);
      cargoState := cargoState[op.to - 1 := cargoState[op.to - 1] + cargoToMove];
      assert cargoState == ApplyOperation(before, op).value;
    }
    assert ops[|ops|..] == [];
    return Some(cargoState);
  }

  /** Every stack keyed 0 to n-1 is present and holds a crate. */
  predicate TopsExist(cargo: Cargo, n: nat) {
    forall k | 0 <= k < n :: k in cargo && cargo[k] != []
  }

  /** The top crates of stacks 0 to n-1, in key order, as one string. */
  function TopCrates(cargo: Cargo, n: nat): string
    requires TopsExist(cargo, n)
  {
    if n == 0 then [] else TopCrates(cargo, n - 1) + cargo[n - 1][|cargo[n - 1]| - 1]
  }

  /** With one-letter crates, the answer has one letter per stack: the
      top crate of stack i is letter i. */
  lemma {:induction false} TopCratesLetters(cargo: Cargo, n: nat)
    requires TopsExist(cargo, n)
    requires forall k | 0 <= k < n :: |cargo[k][|cargo[k]| - 1]| == 1
    ensures |TopCrates(cargo, n)| == n
    ensures forall i | 0 <= i < n :: TopCrates(cargo, n)[i] == cargo[i][|cargo[i]| - 1][0]
  {
    if n > 0 {
      TopCratesLetters(cargo, n - 1);
    }
  }

  /** `get_top_cargo`: for keys 0 up to the number of stacks, the top crate of
      each; a missing key or an empty stack stops the program. */
  method GetTopCargo(cargo: Cargo) returns (r: Option<string>)
    ensures r.Some? <==> TopsExist(cargo, |cargo|)
    ensures r.Some? ==> r.value == TopCrates(cargo, |cargo|)
  {
    var topCargo := "";
    for key := 0 to |cargo|
      invariant TopsExist(cargo, key) && topCargo == TopCrates(cargo, key)
    {
      if key !in cargo || cargo[key] == [] {
        return None;
      }
      topCargo := topCargo + cargo[key][|cargo[key]| - 1];
    }
    return Some(topCargo);
  }
}
