/** The optional value used for the notebook's failure cases: a scorer that raises, or a
    statistic pandas would report as NaN. */
module Options {

  datatype Option<+T> = None | Some(value: T)

}
