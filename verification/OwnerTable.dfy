/** The per-line owner table of `_innermost_by_line`, and the single-line lookup
    `innermost_at` that must give the same answers. */
module OwnerTable {
  import opened Options

  datatype Symbol = Symbol(startLine: int, endLine: int, isFile: bool)

  /** The comparison both lookups make: smaller span first, then a real symbol before a file. */
  predicate Tighter(a: Symbol, b: Symbol) {
    var spanA, spanB := a.endLine - a.startLine, b.endLine - b.startLine;
    spanA < spanB || (spanA == spanB && !a.isFile && b.isFile)
  }

  predicate Covers(s: Symbol, line: int) {
    line >= 1 && s.startLine <= line <= s.endLine
  }

  /** Symbol `i` comes no later than symbol `j`: by span, then real symbols before files, then by place. */
  ghost predicate NoLater(symbols: seq<Symbol>, i: nat, j: nat)
    requires i < |symbols| && j < |symbols|
  {
    var a, b := symbols[i], symbols[j];
    var spanA, spanB := a.endLine - a.startLine, b.endLine - b.startLine;
    || spanA < spanB
    || (spanA == spanB && (if a.isFile == b.isFile then i <= j else b.isFile))
  }

  /** `owner` is the first of the first `k` symbols covering `line` in that order. */
  ghost predicate IsInnermost(symbols: seq<Symbol>, k: nat, line: int, owner: Option<nat>)
    requires k <= |symbols|
  {
    match owner
    case None => forall j :: 0 <= j < k ==> !Covers(symbols[j], line)
    case Some(i) =>
      && i < k && Covers(symbols[i], line)
      && forall j :: 0 <= j < k && Covers(symbols[j], line) ==> NoLater(symbols, i, j)
  }

  lemma InnermostIsUnique(symbols: seq<Symbol>, k: nat, line: int, a: Option<nat>, b: Option<nat>)
    requires k <= |symbols| && IsInnermost(symbols, k, line, a) && IsInnermost(symbols, k, line, b)
    ensures a == b
  {
  }

  method InnermostByLine(symbols: seq<Symbol>, lineCount: nat) returns (owners: array<Option<nat>>)
    ensures fresh(owners) && owners.Length == lineCount + 1
    ensures forall line :: 0 <= line <= lineCount ==> IsInnermost(symbols, |symbols|, line, owners[line])
  {
    owners := new Option<nat>[lineCount + 1](_ => None);
    for k := 0 to |symbols|
      invariant forall line :: 0 <= line <= lineCount ==> IsInnermost(symbols, k, line, owners[line])
    {
      var symbol := symbols[k];
      var start := if symbol.startLine < 1 then 1 else symbol.startLine;
      var end := if symbol.endLine < lineCount then symbol.endLine else lineCount;
      var number := start;
      while number <= end
        invariant start <= number && (number <= end + 1 || number == start)
        invariant forall line :: 0 <= line <= lineCount ==>
                    IsInnermost(symbols, if start <= line < number then k + 1 else k, line, owners[line])
        decreases end - number
      {
        var current := owners[number];
        if current.None? || Tighter(symbol, symbols[current.value]) {
          owners[number] := Some(k);
        }
        number := number + 1;
      }
    }
  }

  method InnermostAt(symbols: seq<Symbol>, line: int) returns (best: Option<nat>)
    ensures IsInnermost(symbols, |symbols|, line, best)
  {
    best := None;
    if line <= 0 {
      return;
    }
    for k := 0 to |symbols|
      invariant IsInnermost(symbols, k, line, best)
    {
      var symbol := symbols[k];
      if symbol.startLine <= line <= symbol.endLine {
        if best.None? || Tighter(symbol, symbols[best.value]) {
          best := Some(k);
        }
      }
    }
  }
}
