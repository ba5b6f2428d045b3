/** Values shared by every part of the handler model. */
module Common {

  /** Python's `None` or a present value. */
  datatype Option<+T> = None | Some(value: T)

  /** The placeholder the handler shows for every missing value ("Unknown" in Russian). */
  const Unknown: string := "Неизвестно"
}
