/** The app's data records: the two timer modes and the workout entries the lists and the search show. */
module Workouts {

  /** `TimerMode`: a session either counts down from a duration or counts up from zero. */
  datatype TimerMode = Countdown | Stopwatch

  /** `WorkoutMeta`: a workout as the lists and the search pool describe it. */
  datatype WorkoutMeta = WorkoutMeta(title: string, level: string, minutes: int, mode: TimerMode)
}
