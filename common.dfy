/**
 * Small value wrappers shared by the three pages.
 *
 * `Response` stands for the outcome of one HTTP call made through the axios
 * client: either the decoded response body or a rejected promise (network
 * failure, non-2xx status). The HTTP transport itself is not modelled; every
 * page receives the outcome of its calls as a parameter.
 */
module Common {

  datatype Option<T> = None | Some(value: T)

  datatype Response<T> = Ok(data: T) | Failed

  function Min(a: int, b: int): int
  {
    if a <= b then a else b
  }
}
