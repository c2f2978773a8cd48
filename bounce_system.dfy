/**
 * The combat engine (BounceSystem): the strength comparison that turns a
 * capture into a fight, the damage it deals, the statistics a new piece
 * gets, and the choice of the tile a beaten piece bounces to, by a random
 * draw or by the first number in a language-model reply.
 *
 * Random.Range and the language model are inputs: a `Choice` carries the
 * draw and the reply one call of BounceToTile would have used.
 */
module Bounce {
  import opened Wrappers
  import opened BounceData
  import opened Commands
  import opened Pieces

  datatype FightResult = Win | Lose | Draw

  /** The .NET exceptions the engine and the board can raise on bad configuration or bad input. */
  datatype Fault =
    | FormatException      // int.Parse of a reply with no digits
    | OverflowException    // int.Parse of a digit run above Int32.MaxValue
    | ArgumentOutOfRange   // a list index outside the list
    | NullReference        // KillChessman called with no piece

  const Int32Max: int := 0x7FFF_FFFF

  // ---------------------------------------------------------------------
  // Fight outcome and damage

  /** CalculateFightResult, from the attacker's side. */
  function CalculateFightResult(attackerStrength: int, defenderStrength: int): (r: FightResult)
    ensures r == Win <==> attackerStrength > defenderStrength
    ensures r == Lose <==> attackerStrength < defenderStrength
    ensures r == Draw <==> attackerStrength == defenderStrength
  {
    if attackerStrength > defenderStrength then Win
    else if attackerStrength < defenderStrength then Lose
    else Draw
  }

  function Mirror(r: FightResult): FightResult {
    match r
    case Win => Lose
    case Lose => Win
    case Draw => Draw
  }

  /** Swapping attacker and defender swaps Win and Lose and keeps Draw. */
  lemma SwapRoles(a: int, b: int)
    ensures CalculateFightResult(b, a) == Mirror(CalculateFightResult(a, b))
  {
  }

  function DamageUnit(unit: ChessmanBounceData, amount: int): (r: ChessmanBounceData)
    ensures r.currentHealth == unit.currentHealth - amount
    ensures r.strength == unit.strength && r.maxHealth == unit.maxHealth
  {
    unit.(currentHealth := unit.currentHealth - amount)
  }

  /** TryGetValue<float> cannot throw on this name: it is unset or holds a float. */
  predicate FloatTyped(vars: Variables, name: string) {
    name in vars ==> vars[name].FloatValue?
  }

  /** The float TryGetValue leaves in its out parameter: the stored value, or 0 when unset. */
  function FloatOrDefault(vars: Variables, name: string): (f: int)
    requires FloatTyped(vars, name)
    ensures name in vars ==> f == vars[name].f
    ensures name !in vars ==> f == 0
  {
    var got := Lookup(vars, name, FloatType);
    got.result.f
  }

  /**
   * `TryGetValue(a, out x) & TryGetValue(b, out y)`: both lookups run, since
   * `&` does not short-circuit. The flag is only logged by Debug.Assert,
   * which does not stop execution, so the values read are used either way.
   */
  function LookupPair(vars: Variables, a: string, b: string): (r: (bool, int, int))
    requires FloatTyped(vars, a) && FloatTyped(vars, b)
    ensures r.0 <==> a in vars && b in vars
    ensures r.1 == FloatOrDefault(vars, a) && r.2 == FloatOrDefault(vars, b)
  {
    var first := Lookup(vars, a, FloatType);
    var second := Lookup(vars, b, FloatType);
    (first.found && second.found, first.result.f, second.result.f)
  }

  predicate DamageConfigured(vars: Variables) {
    FloatTyped(vars, "winnerDamage") && FloatTyped(vars, "loserDamage")
  }

  function WinnerDamage(vars: Variables): int
    requires DamageConfigured(vars)
  {
    FloatOrDefault(vars, "winnerDamage")
  }

  function LoserDamage(vars: Variables): int
    requires DamageConfigured(vars)
  {
    FloatOrDefault(vars, "loserDamage")
  }

  datatype Fight = Fight(result: FightResult, attacker: ChessmanBounceData, defender: ChessmanBounceData)

  /**
   * ResolveFight: compare strengths, then take winnerDamage and loserDamage
   * off the two current healths. Only currentHealth changes; health may end
   * at or below zero.
   */
  function ResolveFight(vars: Variables, attacker: ChessmanBounceData, defender: ChessmanBounceData): (r: Fight)
    requires DamageConfigured(vars)
    ensures r.result == CalculateFightResult(attacker.strength, defender.strength)
    ensures r.attacker.strength == attacker.strength && r.attacker.maxHealth == attacker.maxHealth
    ensures r.defender.strength == defender.strength && r.defender.maxHealth == defender.maxHealth
    ensures r.result == Win ==> r.attacker.currentHealth == attacker.currentHealth - WinnerDamage(vars)
    ensures r.result == Win ==> r.defender.currentHealth == defender.currentHealth - LoserDamage(vars)
    ensures r.result == Lose ==> r.attacker.currentHealth == attacker.currentHealth - LoserDamage(vars)
    ensures r.result == Lose ==> r.defender.currentHealth == defender.currentHealth - WinnerDamage(vars)
    ensures r.result == Draw ==> r.attacker.currentHealth == attacker.currentHealth - WinnerDamage(vars)
    ensures r.result == Draw ==> r.defender.currentHealth == defender.currentHealth - WinnerDamage(vars)
  {
    var result := CalculateFightResult(attacker.strength, defender.strength);
    var (_, winnerDamage, loserDamage) := LookupPair(vars, "winnerDamage", "loserDamage");
    match result
    case Win => Fight(Win, DamageUnit(attacker, winnerDamage), DamageUnit(defender, loserDamage))
    case Draw => Fight(Draw, DamageUnit(attacker, winnerDamage), DamageUnit(defender, winnerDamage))
    case Lose => Fight(Lose, DamageUnit(attacker, loserDamage), DamageUnit(defender, winnerDamage))
  }

  /** Without the damage variables the fight still runs and nobody is hurt. */
  lemma UnconfiguredFightHarmless(vars: Variables, attacker: ChessmanBounceData, defender: ChessmanBounceData)
    requires "winnerDamage" !in vars && "loserDamage" !in vars
    ensures ResolveFight(vars, attacker, defender).attacker == attacker
    ensures ResolveFight(vars, attacker, defender).defender == defender
  {
  }

  // ---------------------------------------------------------------------
  // Random draws and new statistics

  /**
   * Random.Range(lo, hi) for integers, given the generator's raw draw: a
   * value in [lo, hi), and lo itself when the range is empty.
   */
  function RandomRange(lo: int, hi: int, draw: nat): (r: int)
    ensures lo < hi ==> lo <= r < hi
    ensures hi <= lo ==> r == lo
  {
    if lo < hi then lo + draw % (hi - lo) else lo
  }

  /** Every value of a non-empty range is some draw's result, so the draw loses no generality. */
  lemma RandomRangeCovers(lo: int, hi: int, v: int)
    requires lo <= v < hi
    ensures RandomRange(lo, hi, v - lo) == v
  {
  }

  /** The two raw draws CreateBounceData makes, health first. */
  datatype StatDraw = StatDraw(health: nat, strength: nat)

  predicate StatsConfigured(vars: Variables) {
    FloatTyped(vars, "maxHealth") && FloatTyped(vars, "maxStrength")
  }

  /**
   * CreateBounceData: strength in [1, maxStrength) and maximum health in
   * [1, maxHealth), at full health. The language-model variant is disabled
   * in the source and is not modelled.
   */
  function CreateBounceData(vars: Variables, draw: StatDraw): (d: ChessmanBounceData)
    requires StatsConfigured(vars)
    ensures d.currentHealth == d.maxHealth
    ensures var maxHealth, maxStrength := FloatOrDefault(vars, "maxHealth"), FloatOrDefault(vars, "maxStrength");
      && (1 < maxStrength ==> 1 <= d.strength < maxStrength)
      && (1 < maxHealth ==> 1 <= d.maxHealth < maxHealth)
      && (maxStrength <= 1 ==> d.strength == 1)
      && (maxHealth <= 1 ==> d.maxHealth == 1)
  {
    var (_, maxHealth, maxStrength) := LookupPair(vars, "maxHealth", "maxStrength");
    var health := RandomRange(1, maxHealth, draw.health);
    var strength := RandomRange(1, maxStrength, draw.strength);
    NewBounceData(strength, health)
  }

  /** Every piece the engine creates starts alive and at full health. */
  lemma CreatedStatsAlive(vars: Variables, draw: StatDraw, c: Chessman)
    requires StatsConfigured(vars) && c.bounceData == CreateBounceData(vars, draw)
    ensures IsAlive(c) && c.bounceData.currentHealth <= c.bounceData.maxHealth
  {
  }

  // ---------------------------------------------------------------------
  // The number in an oracle reply: Regex.Match(reply, @"\d+") then int.Parse

  predicate IsDigit(c: char) {
    '0' <= c <= '9'
  }

  /** The end of the digit run that starts at or before j: the first non-digit at or after j. */
  function RunEnd(s: string, j: nat): (e: nat)
    requires j <= |s|
    ensures j <= e <= |s|
    ensures forall k | j <= k < e :: IsDigit(s[k])
    ensures e == |s| || !IsDigit(s[e])
    decreases |s| - j
  {
    if j == |s| || !IsDigit(s[j]) then j else RunEnd(s, j + 1)
  }

  /** The leftmost maximal digit run at or after i, as [start, end). */
  function RunFrom(s: string, i: nat): (r: Option<(nat, nat)>)
    requires i <= |s|
    ensures r.None? <==> forall k | i <= k < |s| :: !IsDigit(s[k])
    ensures r.Some? ==>
      && i <= r.value.0 < r.value.1 <= |s|
      && (forall k | i <= k < r.value.0 :: !IsDigit(s[k]))
      && (forall k | r.value.0 <= k < r.value.1 :: IsDigit(s[k]))
      && (r.value.1 == |s| || !IsDigit(s[r.value.1]))
    decreases |s| - i
  {
    if i == |s| then None
    else if IsDigit(s[i]) then Some((i, RunEnd(s, i)))
    else RunFrom(s, i + 1)
  }

  function Pow10(k: nat): (p: nat)
    ensures p >= 1
  {
    if k == 0 then 1 else 10 * Pow10(k - 1)
  }

  /** The decimal value of a run of digits, most significant first (int.Parse): below 10 to the run's length. */
  function DecimalValue(digits: string): (n: nat)
    requires forall k | 0 <= k < |digits| :: IsDigit(digits[k])
    ensures n < Pow10(|digits|)
  {
    if digits == [] then 0
    else
      var last := digits[|digits| - 1];
      assert IsDigit(last);
      DecimalValue(digits[..|digits| - 1]) * 10 + (last as int - '0' as int)
  }

  /** The number a reply names: the value of its first maximal digit run, if it has digits. */
  function ReplyNumber(reply: string): (r: Option<nat>)
    ensures r.None? <==> forall k | 0 <= k < |reply| :: !IsDigit(reply[k])
  {
    match RunFrom(reply, 0)
    case None => None
    case Some((i, j)) => Some(DecimalValue(reply[i..j]))
  }

  // ---------------------------------------------------------------------
  // Tile choice

  /** The raw random draw and the oracle reply one BounceToTile call would see. */
  datatype Choice = Choice(draw: nat, reply: string)

  /**
   * BounceToTile: with the oracle, the first number in its reply indexes the
   * list; otherwise Random.Range(0, Count) does. Nothing is clamped: a reply
   * without digits, a number too large for an int, or an index outside the
   * list raises the exception .NET raises there.
   */
  function BounceToTile(useLLM: bool, choice: Choice, freeTiles: seq<Tile>): (r: Result<Tile, Fault>)
    ensures r.Success? ==> r.value in freeTiles
    ensures freeTiles == [] ==> r.Failure?
    ensures !useLLM && freeTiles != [] ==> r.Success?
    ensures useLLM ==> (r.Failure? <==> match ReplyNumber(choice.reply)
                                         case None => true
                                         case Some(n) => n > Int32Max || n >= |freeTiles|)
    ensures useLLM && r.Success? ==>
      ReplyNumber(choice.reply).Some? && r.value == freeTiles[ReplyNumber(choice.reply).value]
    ensures !useLLM && r.Success? ==> r.value == freeTiles[RandomRange(0, |freeTiles|, choice.draw)]
  {
    if useLLM then
      match ReplyNumber(choice.reply)
      case None => Failure(FormatException)
      case Some(n) =>
        if n > Int32Max then Failure(OverflowException)
        else if n < |freeTiles| then Success(freeTiles[n])
        else Failure(ArgumentOutOfRange)
    else
      var index := RandomRange(0, |freeTiles|, choice.draw);
      if index < |freeTiles| then Success(freeTiles[index]) else Failure(ArgumentOutOfRange)
  }

  /**
   * The characterisation of RunFrom pins the match down: after a digit-free
   * prefix, a single digit followed by a non-digit is the run.
   */
  lemma {:induction false} SingleDigitAfterWords(words: string, d: char, rest: string)
    requires forall k | 0 <= k < |words| :: !IsDigit(words[k])
    requires IsDigit(d) && rest != [] && !IsDigit(rest[0])
    ensures RunFrom(words + [d] + rest, 0) == Some((|words|, |words| + 1))
  {
    var s := words + [d] + rest;
    assert s[|words|] == d && s[|words| + 1] == rest[0];
    assert forall k | 0 <= k < |words| :: !IsDigit(s[k]) by {
      assert forall k | 0 <= k < |words| :: s[k] == words[k];
    }
    var r := RunFrom(s, 0);
    assert r.Some?;
    var (i, j) := r.value;
    assert IsDigit(s[i]);
    assert i == |words|;
    assert j == |words| + 1;
  }

  const ExampleReply: string := "I choose option 2 I guess"

  /** "I choose option 2 I guess" names 2. */
  lemma ExampleReplyNumber()
    ensures ReplyNumber(ExampleReply) == Some(2)
  {
    var words := "I choose option ";
    assert forall k | 0 <= k < |words| :: !IsDigit(words[k]);
    assert ExampleReply == words + ['2'] + " I guess";
    SingleDigitReply(words, '2', " I guess");
  }

  /** A reply whose only digit is d, followed by a non-digit, names d's value. */
  lemma {:induction false} SingleDigitReply(words: string, d: char, rest: string)
    requires forall k | 0 <= k < |words| :: !IsDigit(words[k])
    requires IsDigit(d) && rest != [] && !IsDigit(rest[0])
    ensures ReplyNumber(words + [d] + rest) == Some(d as int - '0' as int)
  {
    var s := words + [d] + rest;
    SingleDigitAfterWords(words, d, rest);
    assert s[|words|..|words| + 1] == [d];
    assert [d][..|[d]| - 1] == [];
    assert DecimalValue([d]) == DecimalValue([]) * 10 + (d as int - '0' as int);
  }

  /** A reply with a two-digit number: "pick 12" names 12, the whole run and not its first digit. */
  lemma MultiDigitReply()
    ensures ReplyNumber("pick 12") == Some(12)
  {
  }

  /** So among three free tiles the oracle's reply picks the third. */
  lemma OracleReplyExample(t0: Tile, t1: Tile, t2: Tile, draw: nat)
    ensures BounceToTile(true, Choice(draw, ExampleReply), [t0, t1, t2]) == Success(t2)
  {
    ExampleReplyNumber();
  }

  // ---------------------------------------------------------------------
  // The engine object

  /** The settings asset: whether to ask the oracle, and the commands that fill the store. */
  datatype BounceMechanicSettings = BounceMechanicSettings(useLLM: bool, initialisationCommands: seq<CommandData>)

  class BounceSystem {
    const useLLM: bool
    const commandSystem: UniversalCommandSystem

    constructor (settings: BounceMechanicSettings)
      ensures fresh(commandSystem)
      ensures useLLM == settings.useLLM
      ensures commandSystem.variables == RunAll(map[], settings.initialisationCommands)
    {
      useLLM := settings.useLLM;
      commandSystem := new UniversalCommandSystem();
      new;
      RunInitialisationCommands(settings.initialisationCommands);
    }

    method RunInitialisationCommands(commands: seq<CommandData>)
      modifies commandSystem
      ensures commandSystem.variables == RunAll(old(commandSystem.variables), commands)
    {
      var i := 0;
      while i < |commands|
        invariant 0 <= i <= |commands|
        invariant commandSystem.variables == RunAll(old(commandSystem.variables), commands[..i])
      {
        commandSystem.RunCommand(commands[i]);
        assert commands[..i + 1][..i] == commands[..i];
        i := i + 1;
      }
      assert commands[..i] == commands;
    }
  }
}
