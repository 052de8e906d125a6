/** The kinds of observable, and the key that identifies one. */
module Observables {
  datatype ObsType = IpAddr | DomainName | Url | FileHash | EmailAddr | CommandLine

  /** The (type, value) unique key. */
  datatype Key = Key(typ: ObsType, value: string)
}
