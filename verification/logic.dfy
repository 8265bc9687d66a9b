/**
 * The knuckle-crack cooldown state machine of core/logic.py (class CrackLogic)
 * and the stats.json counter it persists.
 *
 * The wall clock is replaced by an integer number of seconds `now` that each
 * operation receives; the fact picked at random by core/facts.py is received
 * as `fact`. Message texts are abstracted to the values they format.
 *
 * The machine has two states, derived from the fields rather than stored:
 * Ready (`now - lastCrack >= cooldown`) and Cooling (otherwise).
 */
module CoreLogic {
  import opened Wrappers

  /** CrackLogic.DEFAULT_COOLDOWN: five minutes. */
  const DEFAULT_COOLDOWN: int := 300

  /** The JSON object held in stats.json. */
  type StatsRecord = map<string, int>

  /** The file stats.json; `None` when it does not exist. */
  class StatsJson {
    var contents: Option<StatsRecord>

    constructor (contents: Option<StatsRecord>)
      ensures this.contents == contents
    {
      this.contents := contents;
    }
  }

  /** The count load_stats obtains from the file: its "crack_count" entry, 0 when the entry or the file is missing. */
  function LoadCount(file: Option<StatsRecord>): (count: int)
    ensures file.None? ==> count == 0
    ensures file.Some? && "crack_count" !in file.value ==> count == 0
    ensures file.Some? && "crack_count" in file.value ==> count == file.value["crack_count"]
  {
    match file
    case None => 0
    case Some(data) => if "crack_count" in data then data["crack_count"] else 0
  }

  /** The record save_stats writes; reading it back gives the same count. */
  function StatsOf(count: int): (data: StatsRecord)
    ensures data.Keys == {"crack_count"}
    ensures LoadCount(Some(data)) == count
  {
    map["crack_count" := count]
  }

  /** The Ready state: from the instant `lastCrack + cooldown` on, that instant included. */
  predicate Ready(cooldown: int, lastCrack: int, now: int)
    ensures Ready(cooldown, lastCrack, now) <==> lastCrack + cooldown <= now
  {
    now - lastCrack >= cooldown
  }

  /** The seconds reported while Cooling: exactly how long until the state becomes Ready. */
  function Remaining(cooldown: int, lastCrack: int, now: int): (wait: int)
    requires !Ready(cooldown, lastCrack, now)
    ensures 1 <= wait
    ensures Ready(cooldown, lastCrack, now + wait)
    ensures !Ready(cooldown, lastCrack, now + wait - 1)
  {
    cooldown - (now - lastCrack)
  }

  /** The message crack() returns: the new total on success, the seconds to wait otherwise. */
  datatype Message = Cracked(total: int) | OnCooldown(wait: int)

  /** The triple (success, message, fact) returned by crack(). */
  datatype Reply = Reply(success: bool, message: Message, fact: string)

  /** The message get_status() returns. */
  datatype Status = ReadyToCrack | Cooling(wait: int)

  /** A CrackLogic object together with the contents of stats.json. */
  datatype Session = Session(cooldown: int, lastCrack: int, crackCount: int, stored: Option<StatsRecord>)

  /** The stored count agrees with the in-memory one. */
  predicate Persisted(s: Session)
  {
    LoadCount(s.stored) == s.crackCount
  }

  /** The state right after construction over a given stats.json. */
  function Initial(cooldown: int, stored: Option<StatsRecord>): (s: Session)
    ensures s.cooldown == cooldown && s.stored == stored
    ensures Persisted(s)
    ensures stored.None? ==> s.crackCount == 0
    ensures forall now :: Ready(s.cooldown, s.lastCrack, now) <==> now >= cooldown
  {
    Session(cooldown, 0, LoadCount(stored), stored)
  }

  /** One call of crack() at time `now`: the new state and the reply. */
  function Attempt(s: Session, now: int, fact: string): (r: (Session, Reply))
    ensures r.1.success <==> Ready(s.cooldown, s.lastCrack, now)
    ensures r.1.success ==>
      && r.0.cooldown == s.cooldown
      && r.0.lastCrack == now
      && r.0.crackCount == s.crackCount + 1
      && Persisted(r.0)
      && r.1 == Reply(true, Cracked(r.0.crackCount), fact)
      && (forall t :: Ready(r.0.cooldown, r.0.lastCrack, t) <==> t >= now + s.cooldown)
    ensures !r.1.success ==>
      && r.0 == s
      && r.1.fact == ""
      && r.1.message.OnCooldown?
      && 1 <= r.1.message.wait
      && Ready(s.cooldown, s.lastCrack, now + r.1.message.wait)
      && !Ready(s.cooldown, s.lastCrack, now + r.1.message.wait - 1)
  {
    if Ready(s.cooldown, s.lastCrack, now) then
      var count := s.crackCount + 1;
      (Session(s.cooldown, now, count, Some(StatsOf(count))), Reply(true, Cracked(count), fact))
    else
      (s, Reply(false, OnCooldown(Remaining(s.cooldown, s.lastCrack, now)), ""))
  }

  /** What may happen to a session: a crack attempt, a status or recharge poll, or a new cooldown. */
  datatype Event = CrackAt(now: int, fact: string) | PollAt(now: int) | SetCooldown(value: int)

  function Apply(s: Session, e: Event): (s': Session)
  {
    match e
    case CrackAt(now, fact) => Attempt(s, now, fact).0
    case PollAt(_) => s
    case SetCooldown(value) => s.(cooldown := value)
  }

  /** The event is a crack attempt that succeeds in state `s`. */
  predicate Succeeds(s: Session, e: Event)
  {
    e.CrackAt? && Ready(s.cooldown, s.lastCrack, e.now)
  }

  function Run(s: Session, events: seq<Event>): (s': Session)
    decreases |events|
  {
    if events == [] then s else Run(Apply(s, events[0]), events[1..])
  }

  /** The number of successful crack attempts along a run. */
  function Cracks(s: Session, events: seq<Event>): (n: nat)
    decreases |events|
  {
    if events == [] then 0
    else (if Succeeds(s, events[0]) then 1 else 0) + Cracks(Apply(s, events[0]), events[1..])
  }

  /** The count after a run is the starting count plus the successful attempts. */
  lemma {:induction false} RunCount(s: Session, events: seq<Event>)
    ensures Run(s, events).crackCount == s.crackCount + Cracks(s, events)
    decreases |events|
  {
    if events != [] {
      RunCount(Apply(s, events[0]), events[1..]);
    }
  }

  /** The count never decreases, whatever attempts, polls and cooldown changes happen. */
  lemma {:induction false} RunMonotonic(s: Session, events: seq<Event>)
    ensures Run(s, events).crackCount >= s.crackCount
  {
    RunCount(s, events);
  }

  /** A run started with the file in step with the count keeps it so. */
  lemma {:induction false} RunPersisted(s: Session, events: seq<Event>)
    requires Persisted(s)
    ensures Persisted(Run(s, events))
    decreases |events|
  {
    if events != [] {
      RunPersisted(Apply(s, events[0]), events[1..]);
    }
  }

  /** After any successful attempt the file holds the current count, whatever it held before. */
  lemma {:induction false} RunPersistedAfterCrack(s: Session, events: seq<Event>)
    requires Cracks(s, events) > 0
    ensures Persisted(Run(s, events))
    decreases |events|
  {
    var next := Apply(s, events[0]);
    if Succeeds(s, events[0]) {
      RunPersisted(next, events[1..]);
    } else {
      RunPersistedAfterCrack(next, events[1..]);
    }
  }

  /** A new CrackLogic over the file a run leaves behind starts from the count the run reached. */
  lemma RestartRestoresCount(cooldown: int, stored: Option<StatsRecord>, events: seq<Event>, cooldown': int)
    ensures Initial(cooldown', Run(Initial(cooldown, stored), events).stored).crackCount
            == Run(Initial(cooldown, stored), events).crackCount
            == LoadCount(stored) + Cracks(Initial(cooldown, stored), events)
  {
    RunPersisted(Initial(cooldown, stored), events);
    RunCount(Initial(cooldown, stored), events);
  }

  /** After a success at `t`, an attempt at `t + cooldown` succeeds and one a second earlier waits exactly one second. */
  lemma CooldownBoundary(s: Session, t: int, fact: string, fact': string)
    requires Ready(s.cooldown, s.lastCrack, t)
    ensures var after := Attempt(s, t, fact).0;
      && Attempt(after, t + s.cooldown, fact').1.success
      && Attempt(after, t + s.cooldown - 1, fact').1 == Reply(false, OnCooldown(1), "")
  {
  }

  /** A cooldown no longer than the elapsed time makes the very next attempt succeed, even mid-Cooling. */
  lemma ShorterCooldownTakesEffect(s: Session, value: int, now: int, fact: string)
    requires value <= now - s.lastCrack
    ensures Attempt(Apply(s, SetCooldown(value)), now, fact).1.success
  {
  }

  /** A cooldown longer than the elapsed time turns Ready back into Cooling, with no crack in between. */
  lemma LongerCooldownTakesEffect(s: Session, value: int, now: int, fact: string)
    requires value > now - s.lastCrack
    ensures Attempt(Apply(s, SetCooldown(value)), now, fact).1 == Reply(false, OnCooldown(value - (now - s.lastCrack)), "")
    ensures Run(s, [SetCooldown(value)]).crackCount == s.crackCount
  {
  }

  /** For a fixed cooldown, once Ready a session stays Ready as time passes until the next successful attempt. */
  lemma ReadyPersists(cooldown: int, lastCrack: int, t: int, t': int)
    requires Ready(cooldown, lastCrack, t) && t <= t'
    ensures Ready(cooldown, lastCrack, t')
  {
  }

  /** Cooldown 300, no stats file: cracks at 1000 and 1300 succeed, one at 1200 waits 100 seconds. */
  lemma Scenario(fact: string)
    ensures var s0 := Initial(300, None);
      var (s1, r1) := Attempt(s0, 1000, fact);
      var (s2, r2) := Attempt(s1, 1200, fact);
      var (s3, r3) := Attempt(s2, 1300, fact);
      && r1 == Reply(true, Cracked(1), fact) && s1.lastCrack == 1000
      && r2 == Reply(false, OnCooldown(100), "")
      && r3 == Reply(true, Cracked(2), fact) && s3.crackCount == 2 && s3.stored == Some(StatsOf(2))
  {
  }

  /** The class CrackLogic: the cooldown, the time of the last successful crack and the count. */
  class CrackLogic {
    var cooldown: int
    var lastCrack: int
    var crackCount: int
    const statsFile: StatsJson

    /** This object together with its stats file, as a value. */
    function State(): Session
      reads this, statsFile
    {
      Session(cooldown, lastCrack, crackCount, statsFile.contents)
    }

    constructor (statsFile: StatsJson, cooldown: int := DEFAULT_COOLDOWN)
      ensures this.statsFile == statsFile
      ensures State() == Initial(cooldown, statsFile.contents)
    {
      this.cooldown := cooldown;
      lastCrack := 0;
      crackCount := 0;
      this.statsFile := statsFile;
      new;
      LoadStats();
    }

    method LoadStats()
      modifies this`crackCount
      ensures crackCount == LoadCount(statsFile.contents)
      ensures Persisted(State())
    {
      match statsFile.contents
      case None =>
        crackCount := 0;
      case Some(data) =>
        crackCount := if "crack_count" in data then data["crack_count"] else 0;
    }

    method SaveStats()
      modifies statsFile
      ensures statsFile.contents == Some(StatsOf(crackCount))
      ensures Persisted(State())
    {
      statsFile.contents := Some(map["crack_count" := crackCount]);
    }

    method Crack(now: int, fact: string) returns (success: bool, message: Message, shown: string)
      modifies this`lastCrack, this`crackCount, statsFile
      ensures (State(), Reply(success, message, shown)) == Attempt(old(State()), now, fact)
    {
      if now - lastCrack >= cooldown {
        lastCrack := now;
        crackCount := crackCount + 1;
        SaveStats();
        return true, Cracked(crackCount), fact;
      }
      var remaining := cooldown - (now - lastCrack);
      return false, OnCooldown(remaining), "";
    }

    /** get_status(): Ready, or the seconds left until Ready. */
    function GetStatus(now: int): (status: Status)
      reads this
      ensures status.ReadyToCrack? <==> Ready(cooldown, lastCrack, now)
      ensures status.Cooling? ==>
        && 1 <= status.wait
        && Ready(cooldown, lastCrack, now + status.wait)
        && !Ready(cooldown, lastCrack, now + status.wait - 1)
    {
      if now - lastCrack >= cooldown then ReadyToCrack
      else Cooling(cooldown - (now - lastCrack))
    }

    /** check_recharge(): whether the "fingers recharged" message is returned (and the notification fired). */
    function CheckRecharge(now: int): (recharged: bool)
      reads this
      ensures recharged <==> GetStatus(now).ReadyToCrack? && crackCount > 0
    {
      now - lastCrack >= cooldown && crackCount > 0
    }
  }

  /** get_status agrees with crack on readiness for the same time and state. */
  lemma StatusAgreesWithCrack(logic: CrackLogic, now: int, fact: string)
    ensures logic.GetStatus(now).ReadyToCrack? <==> Attempt(logic.State(), now, fact).1.success
    ensures logic.GetStatus(now).Cooling? ==>
      Attempt(logic.State(), now, fact).1.message == OnCooldown(logic.GetStatus(now).wait)
  {
  }

  /** With the cooldown left as it is, while Ready after at least one crack every later poll of check_recharge returns the message again. */
  lemma RechargeRepeats(logic: CrackLogic, t: int, t': int)
    requires logic.CheckRecharge(t) && t <= t'
    ensures logic.CheckRecharge(t')
  {
  }
}
