/** The dynamic values (Go `interface{}`) that labels, messages and
    logrus fields hold, as far as the logger inspects them. */
module Values {

  /** A Go `interface{}` value, classified by the type switches of the source. */
  datatype Value =
    | Str(s: string)       // a Go `string`
    | Producer(id: nat)    // a `func() string`; `id` tells producers apart
    | Other(id: nat)       // a value of any other dynamic type

  /** What every producer returns when it is called at one moment. Producers
      may have side effects (a counter, a clock), so the caller supplies the
      results of the calls made at that moment. */
  type Producers = nat -> string
}
