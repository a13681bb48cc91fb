/** An optional value, standing for a TypeScript property that may be
    `undefined` (`paidAmount?: number`, `children?: NavItem[]`). */
module Options {

  datatype Option<+T> = None | Some(value: T) {

    /** `x ?? default`, and `x || default` when `x` is never falsy. */
    function GetOr(default: T): T
    {
      match this
      case Some(v) => v
      case None => default
    }
  }
}
