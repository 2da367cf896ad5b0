/** Optional values. They stand for Java's nullable references and for the
    NaN sentinels the photo records use for unknown coordinates. */
module Options {

  datatype Option<+T> = None | Some(value: T)

  /** A double result: NotFinite stands for NaN or an infinity. */
  datatype Coordinate = NotFinite | Finite(value: real)

}
