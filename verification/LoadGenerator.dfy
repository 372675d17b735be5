/**
  The load generator's shared call budget, its tool mix and its weighted choice.
*/
module LoadGenerator {
  import opened Common

  // ---------------------------------------------------------------- the budget

  /** A client between calls, about to load the counter, or about to swap what it loaded. */
  datatype Client = Idle | Loading | Swapping(seen: nat) | Stopped

  /** The atomic counter, the clients, and a record of how many calls each was granted and how
      many swaps it lost. */
  datatype Budget = Budget(
    total: nat,
    limit: nat,
    clients: seq<Client>,
    granted: seq<nat>,
    lost: seq<nat>)

  function Fresh(clients: nat, limit: nat): Budget {
    Budget(0, limit, seq(clients, i => Idle), seq(clients, i => 0), seq(clients, i => 0))
  }

  predicate WellFormed(b: Budget) {
    |b.granted| == |b.clients| == |b.lost|
  }

  /** The next atomic operation of client `i`. A stopped client was refused and stops for good. */
  function Step(b: Budget, i: nat): Budget
    requires WellFormed(b) && i < |b.clients|
  {
    match b.clients[i]
    case Idle => b.(clients := b.clients[i := Loading])
    case Loading =>
      if b.total >= b.limit then b.(clients := b.clients[i := Stopped])
      else b.(clients := b.clients[i := Swapping(b.total)])
    case Swapping(seen) =>
      if b.total == seen then
        b.(total := seen + 1, clients := b.clients[i := Idle], granted := b.granted[i := b.granted[i] + 1])
      else b.(clients := b.clients[i := Loading], lost := b.lost[i := b.lost[i] + 1])
    case Stopped => b
  }

  function Sum(xs: seq<nat>): nat {
    if xs == [] then 0 else Sum(xs[..|xs| - 1]) + xs[|xs| - 1]
  }

  lemma {:induction false} SumUpdate(xs: seq<nat>, i: nat, x: nat)
    requires i < |xs|
    ensures Sum(xs[i := x]) == Sum(xs) - xs[i] + x
  {
    var n := |xs| - 1;
    if i < n {
      SumUpdate(xs[..n], i, x);
      assert xs[i := x][..n] == xs[..n][i := x];
    } else {
      assert xs[i := x][..n] == xs[..n];
    }
  }

  lemma {:induction false} SumZero(xs: seq<nat>)
    requires forall i | 0 <= i < |xs| :: xs[i] == 0
    ensures Sum(xs) == 0
  {
    if xs != [] {
      SumZero(xs[..|xs| - 1]);
    }
  }

  /** How much of the counter's progress a client has missed so far: its lost swaps, and one
      more when the value it holds is already stale. */
  predicate LossesCovered(b: Budget, i: nat)
    requires WellFormed(b) && i < |b.clients|
  {
    && b.lost[i] + b.granted[i] <= b.total
    && (b.clients[i].Swapping? ==>
          b.clients[i].seen <= b.total && b.clients[i].seen < b.limit
          && b.lost[i] + b.granted[i] <= b.clients[i].seen)
  }

  ghost predicate Inv(b: Budget) {
    && WellFormed(b)
    && b.total == Sum(b.granted) && b.total <= b.limit
    && (forall i: nat | i < |b.clients| :: LossesCovered(b, i))
    && (forall i: nat | i < |b.clients| && b.clients[i].Stopped? :: b.total == b.limit)
  }

  lemma StepKeeps(b: Budget, i: nat)
    requires Inv(b) && i < |b.clients|
    ensures Inv(Step(b, i)) && Step(b, i).limit == b.limit && |Step(b, i).clients| == |b.clients|
  {
    assert LossesCovered(b, i);
    if b.clients[i].Swapping? && b.total == b.clients[i].seen {
      SumUpdate(b.granted, i, b.granted[i] + 1);
    }
    var c := Step(b, i);
    forall j: nat | j < |c.clients| ensures LossesCovered(c, j) {
      assert LossesCovered(b, j);
    }
  }

  predicate TurnsOf(turns: seq<nat>, clients: nat) {
    forall k | 0 <= k < |turns| :: turns[k] < clients
  }

  /** The state after the clients have taken turns in this order. */
  function After(b: Budget, turns: seq<nat>): Budget
    requires WellFormed(b) && TurnsOf(turns, |b.clients|)
    ensures WellFormed(After(b, turns)) && |After(b, turns).clients| == |b.clients|
    ensures After(b, turns).limit == b.limit
  {
    if turns == [] then b
    else Step(After(b, turns[..|turns| - 1]), turns[|turns| - 1])
  }

  lemma {:induction false} AfterKeeps(b: Budget, turns: seq<nat>)
    requires Inv(b) && TurnsOf(turns, |b.clients|)
    ensures Inv(After(b, turns))
  {
    if turns != [] {
      AfterKeeps(b, turns[..|turns| - 1]);
      StepKeeps(After(b, turns[..|turns| - 1]), turns[|turns| - 1]);
    }
  }

  /** In every interleaving of any number of clients: exactly as many calls are granted as the
      counter shows and never more than the limit; a client is refused only when the whole
      budget has been granted; and a client never loses more swaps than others were granted. */
  lemma BudgetIsExact(clients: nat, limit: nat, turns: seq<nat>)
    requires TurnsOf(turns, clients)
    ensures var b := After(Fresh(clients, limit), turns);
      && Sum(b.granted) == b.total <= limit
      && (forall i: nat | i < clients && b.clients[i].Stopped? :: b.total == limit)
      && (forall i: nat | i < clients :: b.lost[i] <= b.total - b.granted[i])
  {
    var start := Fresh(clients, limit);
    SumZero(start.granted);
    forall i: nat | i < |start.clients| ensures LossesCovered(start, i) {}
    AfterKeeps(start, turns);
    var b := After(start, turns);
    forall i: nat | i < clients ensures b.lost[i] <= b.total - b.granted[i] {
      assert LossesCovered(b, i);
    }
  }

  // ---------------------------------------------------------------- the mix

  datatype ToolSpec = ToolSpec(name: string, weight: nat)

  datatype MixError = MissingWeight | UnsupportedTool | RepeatedTool | InvalidWeight | EmptyMix

  const MAX_WEIGHT := 1_000_000

  const SUPPORTED_TOOLS: set<string> :=
    {"query_metrics", "query_logs", "query_traces", "list_observability_providers"}

  /** `strings.Split` on one character: there is always at least one part. */
  function Split(s: string, sep: char): (parts: seq<string>)
    ensures parts != []
    decreases |s|
  {
    var (before, after, found) := Cut(s, sep);
    if found then [before] + Split(after, sep) else [before]
  }

  function Join(parts: seq<string>, sep: char): string
    requires parts != []
  {
    if |parts| == 1 then parts[0] else parts[0] + [sep] + Join(parts[1..], sep)
  }

  /** Splitting undoes joining, and the parts are what lies between the separators. */
  lemma {:induction false} SplitJoins(s: string, sep: char)
    ensures Join(Split(s, sep), sep) == s
    ensures forall part | part in Split(s, sep) :: sep !in part
    decreases |s|
  {
    var (before, after, found) := Cut(s, sep);
    if found {
      SplitJoins(after, sep);
      assert ([before] + Split(after, sep))[1..] == Split(after, sep);
    }
  }

  lemma {:induction false} SplitOfJoined(parts: seq<string>, sep: char)
    requires parts != [] && forall part | part in parts :: sep !in part
    ensures Split(Join(parts, sep), sep) == parts
  {
    if |parts| > 1 {
      SplitOfJoined(parts[1..], sep);
      CutJoined(parts[0], sep, Join(parts[1..], sep));
      assert [parts[0]] + parts[1..] == parts;
    } else {
      assert parts[0] in parts && parts == [parts[0]];
    }
  }

  /** The library's notion of white space and its decimal parser, left abstract. */
  datatype Text = Text(isSpace: char -> bool, atoi: string -> Option<int>)

  function TrimLeft(text: Text, s: string): string {
    if s != "" && text.isSpace(s[0]) then TrimLeft(text, s[1..]) else s
  }

  function TrimRight(text: Text, s: string): string {
    if s != "" && text.isSpace(s[|s| - 1]) then TrimRight(text, s[..|s| - 1]) else s
  }

  function Trim(text: Text, s: string): string {
    TrimRight(text, TrimLeft(text, s))
  }

  predicate AllSpace(text: Text, s: string) {
    forall c | c in s :: text.isSpace(c)
  }

  lemma {:induction false} TrimLeftSplits(text: Text, s: string) returns (left: string)
    ensures s == left + TrimLeft(text, s) && AllSpace(text, left)
    ensures TrimLeft(text, s) != "" ==> !text.isSpace(TrimLeft(text, s)[0])
  {
    left := "";
    if s != "" && text.isSpace(s[0]) {
      left := TrimLeftSplits(text, s[1..]);
      left := [s[0]] + left;
    }
  }

  lemma {:induction false} TrimRightSplits(text: Text, s: string) returns (right: string)
    ensures s == TrimRight(text, s) + right && AllSpace(text, right)
    ensures TrimRight(text, s) != "" ==>
      !text.isSpace(TrimRight(text, s)[|TrimRight(text, s)| - 1]) && TrimRight(text, s)[0] == s[0]
  {
    right := "";
    if s != "" && text.isSpace(s[|s| - 1]) {
      right := TrimRightSplits(text, s[..|s| - 1]);
      right := right + [s[|s| - 1]];
    }
  }

  /** Trimming takes white space off both ends, all of it and nothing else. */
  lemma TrimIsExact(text: Text, s: string) returns (left: string, right: string)
    ensures s == left + Trim(text, s) + right && AllSpace(text, left) && AllSpace(text, right)
    ensures Trim(text, s) != "" ==>
      !text.isSpace(Trim(text, s)[0]) && !text.isSpace(Trim(text, s)[|Trim(text, s)| - 1])
  {
    left := TrimLeftSplits(text, s);
    right := TrimRightSplits(text, TrimLeft(text, s));
  }

  /** One entry read on its own; whether it may follow the others is not decided here. */
  function Entry(text: Text, part: string): Option<ToolSpec> {
    var (name, weight, found) := Cut(Trim(text, part), ':');
    var value := text.atoi(Trim(text, weight));
    if found && value.Some? && value.value > 0 then Some(ToolSpec(Trim(text, name), value.value)) else None
  }

  /** An entry is a name and a positive number with a colon between them, white space aside. */
  lemma EntryIff(text: Text, part: string, name: string, weight: string)
    requires Trim(text, part) == name + ":" + weight && ':' !in name
    ensures Entry(text, part) ==
      if text.atoi(Trim(text, weight)).Some? && text.atoi(Trim(text, weight)).value > 0
      then Some(ToolSpec(Trim(text, name), text.atoi(Trim(text, weight)).value)) else None
  {
    assert Trim(text, part) == name + [':'] + weight;
    CutJoined(name, ':', weight);
  }

  lemma EntryNeedsColon(text: Text, part: string)
    requires ':' !in Trim(text, part)
    ensures Entry(text, part) == None
  {
  }

  function Total(tools: seq<ToolSpec>): nat {
    if tools == [] then 0 else Total(tools[..|tools| - 1]) + tools[|tools| - 1].weight
  }

  ghost predicate UniqueTools(tools: seq<ToolSpec>) {
    forall i, j | 0 <= i < j < |tools| :: tools[i].name != tools[j].name
  }

  /** A mix as the choice needs it. */
  ghost predicate GoodMix(tools: seq<ToolSpec>) {
    && UniqueTools(tools)
    && (forall i | 0 <= i < |tools| :: tools[i].name in SUPPORTED_TOOLS && tools[i].weight > 0)
    && Total(tools) <= MAX_WEIGHT
  }

  lemma {:induction false} TotalPrefix(tools: seq<ToolSpec>, n: nat)
    requires n <= |tools|
    ensures Total(tools[..n]) <= Total(tools)
  {
    if n < |tools| {
      TotalPrefix(tools[..|tools| - 1], n);
      assert tools[..|tools| - 1][..n] == tools[..n];
    } else {
      assert tools[..n] == tools;
    }
  }

  /** The tools a list of parts stands for. */
  ghost predicate Reads(text: Text, parts: seq<string>, tools: seq<ToolSpec>) {
    |tools| == |parts| && forall i | 0 <= i < |parts| :: Entry(text, parts[i]) == Some(tools[i])
  }

  /** Whether an entry may join tools of these names and this total weight. */
  predicate Fits(tool: ToolSpec, seen: set<string>, totalWeight: nat) {
    tool.name in SUPPORTED_TOOLS && tool.name !in seen && totalWeight + tool.weight <= MAX_WEIGHT
  }

  /** Each error on its own condition, in the order of the checks. */
  ghost predicate Diagnosed(
      text: Text, part: string, seen: set<string>, totalWeight: nat, r: Result<ToolSpec, MixError>)
  {
    var (before, after, found) := Cut(Trim(text, part), ':');
    var name, weight := Trim(text, before), text.atoi(Trim(text, after));
    && (r == Err(MissingWeight) <==> !found)
    && (r == Err(UnsupportedTool) <==> found && name !in SUPPORTED_TOOLS)
    && (r == Err(RepeatedTool) <==> found && name in SUPPORTED_TOOLS && name in seen)
    && (r == Err(InvalidWeight) <==>
          && found && name in SUPPORTED_TOOLS && name !in seen
          && (weight.None? || weight.value <= 0 || totalWeight + weight.value > 1_000_000))
  }

  /** What an accepted mix holds. */
  lemma GoodMixIff(tools: seq<ToolSpec>)
    ensures GoodMix(tools) <==>
      && (forall i, j | 0 <= i < j < |tools| :: tools[i].name != tools[j].name)
      && (forall i | 0 <= i < |tools| ::
            && tools[i].name in {"query_metrics", "query_logs", "query_traces", "list_observability_providers"}
            && tools[i].weight > 0)
      && Total(tools) <= 1_000_000
  {
  }

  /** The body of the parsing loop: reads one entry and checks it against the earlier ones. */
  method ParseEntry(text: Text, part: string, seen: set<string>, totalWeight: nat)
    returns (r: Result<ToolSpec, MixError>)
    ensures r.Ok? ==> Entry(text, part) == Some(r.value) && Fits(r.value, seen, totalWeight)
    ensures r.Err? ==> Entry(text, part).None? || !Fits(Entry(text, part).value, seen, totalWeight)
    ensures Diagnosed(text, part, seen, totalWeight, r)
  {
    var (name, weightText, ok) := Cut(Trim(text, part), ':');
    if !ok {
      return Err(MissingWeight);
    }
    name := Trim(text, name);
    if name !in SUPPORTED_TOOLS {
      return Err(UnsupportedTool);
    }
    if name in seen {
      return Err(RepeatedTool);
    }
    var weight := text.atoi(Trim(text, weightText));
    if weight.None? || weight.value <= 0 || weight.value > MAX_WEIGHT - totalWeight {
      return Err(InvalidWeight);
    }
    return Ok(ToolSpec(name, weight.value));
  }

  function NamesOf(tools: seq<ToolSpec>): set<string> {
    set tool | tool in tools :: tool.name
  }

  lemma GoodMixSnoc(tools: seq<ToolSpec>, tool: ToolSpec)
    requires GoodMix(tools) && tool.weight > 0 && Fits(tool, NamesOf(tools), Total(tools))
    ensures GoodMix(tools + [tool]) && Total(tools + [tool]) == Total(tools) + tool.weight
    ensures NamesOf(tools + [tool]) == NamesOf(tools) + {tool.name}
  {
    assert (tools + [tool])[..|tools|] == tools;
    assert forall i | 0 <= i < |tools| :: tools[i] in tools;
    assert tool in tools + [tool];
  }

  /** Parses the mix: it is accepted exactly when every entry reads as a tool and together they
      are supported, distinct, positively weighted and within the total. */
  method ParseMix(text: Text, mix: string) returns (r: Result<seq<ToolSpec>, MixError>)
    ensures r.Ok? ==> Reads(text, Split(mix, ','), r.value) && GoodMix(r.value) && r.value != []
    ensures r.Err? ==> !exists tools: seq<ToolSpec> :: Reads(text, Split(mix, ','), tools) && GoodMix(tools)
  {
    var parts := Split(mix, ',');
    var out: seq<ToolSpec> := [];
    var seen: set<string> := {};
    var totalWeight: nat := 0;
    for i := 0 to |parts|
      invariant ReadSoFar(text, parts[..i], out, seen, totalWeight)
    {
      var entry := ParseEntry(text, parts[i], seen, totalWeight);
      if entry.Err? {
        Rejected(text, parts, out, i);
        return Err(entry.error);
      }
      ReadSoFarSnoc(text, parts, out, seen, totalWeight, i, entry.value);
      seen := seen + {entry.value.name};
      totalWeight := totalWeight + entry.value.weight;
      out := out + [entry.value];
    }
    assert parts[..|parts|] == parts;
    if |out| == 0 {
      return Err(EmptyMix);
    }
    return Ok(out);
  }

  /** What the loop knows after the entries of `parts`. */
  ghost predicate ReadSoFar(
      text: Text, parts: seq<string>, out: seq<ToolSpec>, seen: set<string>, totalWeight: nat)
  {
    Reads(text, parts, out) && GoodMix(out) && seen == NamesOf(out) && totalWeight == Total(out)
  }

  lemma ReadSoFarSnoc(
      text: Text, parts: seq<string>, out: seq<ToolSpec>, seen: set<string>, totalWeight: nat, i: nat, tool: ToolSpec)
    requires i < |parts| && ReadSoFar(text, parts[..i], out, seen, totalWeight)
    requires Entry(text, parts[i]) == Some(tool) && Fits(tool, seen, totalWeight)
    ensures ReadSoFar(text, parts[..i + 1], out + [tool], seen + {tool.name}, totalWeight + tool.weight)
  {
    GoodMixSnoc(out, tool);
    ReadsSnoc(text, parts, out, i, tool);
  }

  lemma ReadsSnoc(text: Text, parts: seq<string>, out: seq<ToolSpec>, i: nat, tool: ToolSpec)
    requires i < |parts| && Reads(text, parts[..i], out) && Entry(text, parts[i]) == Some(tool)
    ensures Reads(text, parts[..i + 1], out + [tool])
  {
    forall k | 0 <= k < i + 1 ensures Entry(text, parts[..i + 1][k]) == Some((out + [tool])[k]) {
      if k < i {
        assert Entry(text, parts[..i][k]) == Some(out[k]);
      }
    }
  }

  /** A list of parts has one reading at most. */
  lemma ReadingsAgree(text: Text, parts: seq<string>, out: seq<ToolSpec>, i: nat, tools: seq<ToolSpec>)
    requires i <= |parts| && Reads(text, parts[..i], out) && Reads(text, parts, tools)
    ensures tools[..i] == out
  {
    forall k | 0 <= k < i ensures tools[k] == out[k] {
      assert Entry(text, parts[..i][k]) == Some(out[k]);
    }
  }

  lemma TotalOfNext(tools: seq<ToolSpec>, i: nat)
    requires i < |tools|
    ensures Total(tools[..i]) + tools[i].weight <= Total(tools)
  {
    TotalPrefix(tools, i + 1);
    assert tools[..i + 1][..i] == tools[..i];
  }

  lemma NextNameIsNew(tools: seq<ToolSpec>, i: nat)
    requires UniqueTools(tools) && i < |tools|
    ensures tools[i].name !in NamesOf(tools[..i])
  {
    forall tool | tool in tools[..i] ensures tool.name != tools[i].name {
      var k :| 0 <= k < i && tools[..i][k] == tool;
      assert tools[k].name != tools[i].name;
    }
  }

  /** Any acceptable reading starts with the entries read so far and one that fits them. */
  lemma ReadingContinues(text: Text, parts: seq<string>, out: seq<ToolSpec>, i: nat, tools: seq<ToolSpec>)
    requires i < |parts| && Reads(text, parts[..i], out) && Reads(text, parts, tools) && GoodMix(tools)
    ensures Entry(text, parts[i]) == Some(tools[i]) && Fits(tools[i], NamesOf(out), Total(out))
  {
    ReadingsAgree(text, parts, out, i, tools);
    TotalOfNext(tools, i);
    assert tools[i].name !in NamesOf(tools[..i]) by {
      NextNameIsNew(tools, i);
    }
  }

  lemma Rejected(text: Text, parts: seq<string>, out: seq<ToolSpec>, i: nat)
    requires i < |parts| && Reads(text, parts[..i], out)
    requires Entry(text, parts[i]).None? || !Fits(Entry(text, parts[i]).value, NamesOf(out), Total(out))
    ensures !exists tools: seq<ToolSpec> :: Reads(text, parts, tools) && GoodMix(tools)
  {
    forall tools: seq<ToolSpec> | Reads(text, parts, tools) ensures !GoodMix(tools) {
      if GoodMix(tools) {
        ReadingContinues(text, parts, out, i, tools);
      }
    }
  }

  // ---------------------------------------------------------------- the weighted choice

  /** The index chosen for a roll: the first whose running total passes it, or none. */
  function Chosen(tools: seq<ToolSpec>, roll: int): Option<nat> {
    if tools == [] then None
    else if roll < tools[0].weight then Some(0)
    else
      var rest := Chosen(tools[1..], roll - tools[0].weight);
      if rest.Some? then Some(rest.value + 1) else None
  }

  lemma {:induction false} TotalHead(tools: seq<ToolSpec>)
    requires tools != []
    ensures Total(tools) == tools[0].weight + Total(tools[1..])
  {
    if |tools| > 1 {
      var front := tools[..|tools| - 1];
      TotalHead(front);
      assert tools[1..][..|tools[1..]| - 1] == front[1..];
    } else {
      assert tools[1..] == [] && tools[..0] == [];
    }
  }

  /** A roll chooses tool `i` exactly when it falls in the interval of length weight(i) that
      starts after the weights before it. */
  lemma {:induction false} ChosenInterval(tools: seq<ToolSpec>, roll: nat, i: nat)
    requires i < |tools|
    ensures Chosen(tools, roll) == Some(i) <==> Total(tools[..i]) <= roll < Total(tools[..i]) + tools[i].weight
  {
    if i > 0 {
      var w := tools[0].weight;
      TotalHead(tools[..i]);
      assert tools[..i][1..] == tools[1..][..i - 1];
      if roll >= w {
        ChosenInterval(tools[1..], roll - w, i - 1);
      }
    } else {
      assert tools[..0] == [];
    }
  }

  /** For rolls below the total the loop always returns; the final fallback is never reached. */
  lemma {:induction false} FallbackUnreachable(tools: seq<ToolSpec>, roll: nat)
    requires roll < Total(tools)
    ensures Chosen(tools, roll).Some? && Chosen(tools, roll).value < |tools|
  {
    TotalHead(tools);
    if roll >= tools[0].weight {
      FallbackUnreachable(tools[1..], roll - tools[0].weight);
    }
  }

  function Rolls(tools: seq<ToolSpec>, i: nat): set<int> {
    set roll | 0 <= roll < Total(tools) && Chosen(tools, roll) == Some(i)
  }

  predicate InInterval(r: int, low: int, length: nat) {
    low <= r < low + length
  }

  function Interval(low: int, length: nat): set<int> {
    set r | low <= r < low + length && InInterval(r, low, length)
  }

  lemma {:induction false} IntervalSize(low: int, length: nat)
    ensures |Interval(low, length)| == length
  {
    if length > 0 {
      IntervalSize(low, length - 1);
      assert Interval(low, length) == Interval(low, length - 1) + {low + length - 1};
    }
  }

  /** Exactly weight(i) of the total roll values choose tool `i`. */
  lemma EachToolGetsItsWeight(tools: seq<ToolSpec>, i: nat)
    requires i < |tools|
    ensures |Rolls(tools, i)| == tools[i].weight
  {
    var low := Total(tools[..i]);
    TotalPrefix(tools, i + 1);
    assert tools[..i + 1][..i] == tools[..i];
    forall roll: int ensures roll in Rolls(tools, i) <==> low <= roll < low + tools[i].weight {
      if roll >= 0 {
        ChosenInterval(tools, roll, i);
      }
    }
    assert Rolls(tools, i) == Interval(low, tools[i].weight);
    IntervalSize(low, tools[i].weight);
  }

  /** Picks by weight; `roll` is the random number below the total. */
  method PickTool(tools: seq<ToolSpec>, roll: nat) returns (name: string)
    requires roll < Total(tools)
    ensures Chosen(tools, roll).Some? && Chosen(tools, roll).value < |tools|
    ensures name == tools[Chosen(tools, roll).value].name
  {
    FallbackUnreachable(tools, roll);
    var left: int := roll;
    for i := 0 to |tools|
      invariant left >= 0 && Chosen(tools[i..], left).Some?
      invariant Chosen(tools, roll).value == i + Chosen(tools[i..], left).value
    {
      if left < tools[i].weight {
        return tools[i].name;
      }
      assert tools[i..][1..] == tools[i + 1..];
      left := left - tools[i].weight;
    }
    // The fallback after the loop is never reached.
    assert false;
  }
}
