/**
 * The fixed values the CLI is configured with. The status enumeration, the
 * colour enumeration, the services with an exposed port and the image tag
 * are used by the CLI but defined outside the files modelled here; this
 * module gives them concrete values (see README).
 */
module Config {
  import opened Strings

  /** The closed set of lifecycle states a service or worker can be shown in. */
  datatype Status = UP | DOWN | BUILDING | UPDATE_OS_REQS | UPDATE_PIP_REQS | LOADING | ERROR | NA

  /** The enumeration in declaration order, the order `for status in Status` visits it. */
  const AllStatuses: seq<Status> := [UP, DOWN, BUILDING, UPDATE_OS_REQS, UPDATE_PIP_REQS, LOADING, ERROR, NA]

  /** The note the long-running states carry after their first word. */
  const TAKES_A_WHILE: string := " (this may take a while)"

  /** `Status.value`, the text shown to the user. */
  function Value(s: Status): string {
    match s
    case UP => "UP"
    case DOWN => "DOWN"
    case BUILDING => "BUILDING" + TAKES_A_WHILE
    case UPDATE_OS_REQS => "UPDATING-OS" + TAKES_A_WHILE
    case UPDATE_PIP_REQS => "UPDATING-PIP" + TAKES_A_WHILE
    case LOADING => "LOADING"
    case ERROR => "ERROR"
    case NA => "N/A"
  }

  datatype Color = SUCCESS | FAILURE | NEUTRAL

  const SERVICES: seq<string> := ["api", "denzel", "monitor", "redis"]
  const SERVICES_WITH_EXPOSED_PORT: seq<string> := ["api", "monitor"]

  const DENZEL_IMAGE_NAME: string := "denzel"
  const DENZEL_IMAGE_TAG: string := "latest"
  const REDIS_IMAGE_TAG: string := "4"
  const WORKER_LOG_PATH: string := "logs/worker.log"
  const PIP_REQUIREMENTS_FILE: string := "requirements.txt"
  const ENV_FILE: string := ".env"
  const API_PORT: int := 8000
  const MONITOR_PORT: int := 5555
}
