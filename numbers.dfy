/** Integer minimum and maximum, shared by the selection and the
    aggregation modules. */
module Numbers {

  function Min(a: int, b: int): int { if b < a then b else a }

  function Max(a: int, b: int): int { if b > a then b else a }
}
