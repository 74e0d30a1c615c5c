/**
  The session counters of the controller: the exploration countdown with its
  time-budget monitor, which raises a one-shot flag once the time left no
  longer covers the trip back to the start zone, and the fastest-path
  countdown, which also counts elapsed seconds.
 */
module Session {
  import opened Wrappers

  /** Seconds added to the estimated trip back, for the turns a step count does not see. */
  const THRESHOLD_BUFFER_TIME: int := 10
  const EXPLORE_TIME_LIMIT: int := 360
  const FFP_TIME_LIMIT: int := 120
  const EXPLORE_REAL_RUN_SPEED: int := 1

  /**
    The time-budget rule: with `counter` seconds left, a path of `steps` steps
    back to the start and the robot doing `speed` steps a second, the threshold
    is reached when counter <= steps * (1 / speed) + THRESHOLD_BUFFER_TIME.
    A speed of zero makes 1 / speed an infinity: any positive step count then
    reaches the threshold, while zero steps give a product that is not a
    number, which compares false.
   */
  function ThresholdReached(counter: int, steps: nat, speed: int): (reached: bool)
    ensures speed > 0 ==> (reached <==> (counter - THRESHOLD_BUFFER_TIME) * speed <= steps)
    ensures speed < 0 ==> (reached <==> (counter - THRESHOLD_BUFFER_TIME) * speed >= steps)
    ensures speed == 0 && steps > 0 ==> reached
    ensures speed == 0 && steps == 0 ==> !reached
  {
    if speed == 0 then steps > 0
    else counter as real <= steps as real * (1.0 / speed as real) + THRESHOLD_BUFFER_TIME as real
  }

  /**
    The threshold is reached no earlier than the rule says and stays reached as
    time runs out: with a positive speed, once reached at `counter` it is
    reached at every smaller counter and for every longer path.
   */
  lemma {:induction false} ThresholdMonotone(counter: int, counter': int, steps: nat, steps': nat, speed: int)
    requires speed > 0 && counter' <= counter && steps <= steps'
    requires ThresholdReached(counter, steps, speed)
    ensures ThresholdReached(counter', steps', speed)
  {
    assert (counter' - THRESHOLD_BUFFER_TIME) * speed <= (counter - THRESHOLD_BUFFER_TIME) * speed;
  }

  /** The timer message of the exploration countdown. */
  datatype TimerMessage = NoTimerMessage | ExplorationTimeOut | ExploredWithinTimeLimit

  /** What starting an exploration reports. */
  datatype StartStatus = InvalidInputForExploration | NoLayoutLoadedYet | RobotExploring

  /** What the end of an exploration reports. */
  datatype FinishStatus = ExplorationReachesGoalZone | ExplorationNotReachesGoalZone

  /** One exploration session: its countdown, its timer message and its flags. */
  class ExploreSession {
    var counter: int
    var timerRunning: bool
    var timerMessage: TimerMessage
    var hasReachedTimeThreshold: bool
    var hasReachedStart: bool
    var speed: int

    constructor ()
      ensures counter == 0 && !timerRunning && timerMessage == NoTimerMessage
      ensures !hasReachedTimeThreshold && !hasReachedStart && speed == 0
    {
      counter, timerRunning, timerMessage := 0, false, NoTimerMessage;
      hasReachedTimeThreshold, hasReachedStart, speed := false, false, 0;
    }

    /**
      Starts an exploration. In simulation an input that is not an integer, or
      a missing layout, refuses the start and changes nothing; on the robot
      the fixed time limit and speed replace the operator's.
     */
    method StartExploration(realRun: bool, inputIsInt: bool, layoutLoaded: bool, operatorSpeed: int, operatorTimeLimit: int)
      returns (status: StartStatus)
      modifies this
      ensures !realRun && !inputIsInt ==> status == InvalidInputForExploration && unchanged(this)
      ensures !realRun && inputIsInt && !layoutLoaded ==> status == NoLayoutLoadedYet && unchanged(this)
      ensures realRun || (inputIsInt && layoutLoaded) ==>
        && status == RobotExploring
        && counter == (if realRun then EXPLORE_TIME_LIMIT else operatorTimeLimit)
        && speed == (if realRun then EXPLORE_REAL_RUN_SPEED else operatorSpeed)
        && timerRunning && !hasReachedTimeThreshold && !hasReachedStart
        && timerMessage == old(timerMessage)
    {
      if !realRun {
        if !inputIsInt {
          return InvalidInputForExploration;
        }
        if !layoutLoaded {
          return NoLayoutLoadedYet;
        }
      }
      var timeLimit := operatorTimeLimit;
      speed := operatorSpeed;
      if realRun {
        timeLimit := EXPLORE_TIME_LIMIT;
        speed := EXPLORE_REAL_RUN_SPEED;
      }
      counter := timeLimit;
      timerRunning := true;
      hasReachedTimeThreshold := false;
      hasReachedStart := false;
      status := RobotExploring;
    }

    /**
      One tick of the countdown. While seconds remain it compares them with the
      cost of the way back, `backPathSteps` being the planner's step count or
      None when the planner failed; the tick that reaches zero stops the timer
      and reports the time out. The flag is only ever raised here.
     */
    method Tick(backPathSteps: Option<nat>)
      modifies this
      ensures counter == old(counter) - 1
      ensures timerRunning == (old(timerRunning) && counter != 0)
      ensures timerMessage == if counter == 0 then ExplorationTimeOut else old(timerMessage)
      ensures hasReachedTimeThreshold ==
        (old(hasReachedTimeThreshold)
         || (counter >= 0 && backPathSteps.Some? && ThresholdReached(counter, backPathSteps.value, speed)))
      ensures old(hasReachedTimeThreshold) ==> hasReachedTimeThreshold
      ensures speed == old(speed) && hasReachedStart == old(hasReachedStart)
    {
      counter := counter - 1;
      if counter >= 0 {
        if counter == 0 {
          timerRunning := false;
          timerMessage := ExplorationTimeOut;
        }
        if backPathSteps.Some? && ThresholdReached(counter, backPathSteps.value, speed) {
          hasReachedTimeThreshold := true;
        }
      }
    }

    /**
      The end of the explorer's run: the robot is back at the start, the
      countdown stops, and a session that did not time out is reported as
      within its limit.
     */
    method FinishExploration(exploredTillGoal: bool) returns (status: FinishStatus)
      modifies this
      ensures hasReachedStart && !timerRunning
      ensures timerMessage == if old(timerMessage) == ExplorationTimeOut then ExplorationTimeOut else ExploredWithinTimeLimit
      ensures status == if exploredTillGoal then ExplorationReachesGoalZone else ExplorationNotReachesGoalZone
      ensures counter == old(counter) && speed == old(speed)
      ensures hasReachedTimeThreshold == old(hasReachedTimeThreshold)
    {
      hasReachedStart := true;
      if timerMessage != ExplorationTimeOut {
        timerMessage := ExploredWithinTimeLimit;
      }
      if timerRunning {
        timerRunning := false;
      }
      status := if exploredTillGoal then ExplorationReachesGoalZone else ExplorationNotReachesGoalZone;
    }
  }

  /** The fastest-path countdown: the seconds left and the seconds passed always add up to the limit it started with. */
  class FastestPathCountdown {
    var timeLimit: int
    var counter: int
    var running: bool
    var timedOut: bool
    ghost const budget: int

    ghost predicate Valid()
      reads this
    {
      timeLimit + counter == budget && counter >= 0
    }

    /** Starts the countdown, with the fixed limit on the robot and the operator's in simulation. */
    constructor (realRun: bool, ffpTimeLimit: int)
      ensures Valid()
      ensures budget == (if realRun then FFP_TIME_LIMIT else ffpTimeLimit)
      ensures timeLimit == budget && counter == 0 && running && !timedOut
    {
      timeLimit := if realRun then FFP_TIME_LIMIT else ffpTimeLimit;
      budget := if realRun then FFP_TIME_LIMIT else ffpTimeLimit;
      counter := 0;
      running := true;
      timedOut := false;
    }

    /** One second passes; the tick that brings the limit to zero stops the timer and reports the time out. */
    method Tick()
      requires Valid()
      modifies this
      ensures Valid()
      ensures timeLimit == old(timeLimit) - 1 && counter == old(counter) + 1
      ensures running == (old(running) && timeLimit != 0)
      ensures timedOut == (old(timedOut) || timeLimit == 0)
    {
      timeLimit := timeLimit - 1;
      counter := counter + 1;
      if timeLimit == 0 {
        running := false;
        timedOut := true;
      }
    }
  }
}
