/**
 * The JSON envelopes of `ApiResponse.ts`: a paginated success envelope, a
 * simple success envelope and an error envelope, with their static factories.
 * A parameter that defaults to `null` in the source defaults to `None` here.
 */
module ApiResponse {
  import opened Common

  /** `ResponseWithPagination<T>`. */
  datatype PagedResponse<T> = PagedResponse(
    statusCode: int, message: string, total: int,
    prev: Option<int>, next: Option<int>, data: Option<T>)

  /** `SimpleResponse<T>`. */
  datatype SimpleResponse<T> = SimpleResponse(statusCode: int, message: string, data: Option<T>)

  /** `ErrorApiResponse`. */
  datatype ErrorApiResponse = ErrorApiResponse(statusCode: int, message: string, errorStack: Option<string>)

  /**
   * `ResponseWithPagination.success`: a total factory that stores its six
   * arguments unchanged and never checks `prev`/`next` against `total`.
   */
  function PagedSuccess<T>(statusCode: int, message: string, total: int,
                           prev: Option<int>, next: Option<int>, data: Option<T> := None)
    : (r: PagedResponse<T>)
    ensures r.statusCode == statusCode && r.message == message && r.total == total
    ensures r.prev == prev && r.next == next && r.data == data
  {
    PagedResponse(statusCode, message, total, prev, next, data)
  }

  /** `SimpleResponse.success`: stores status, message and data unchanged. */
  function SimpleSuccess<T>(statusCode: int, message: string, data: Option<T> := None)
    : (r: SimpleResponse<T>)
    ensures r.statusCode == statusCode && r.message == message && r.data == data
  {
    SimpleResponse(statusCode, message, data)
  }

  /** `ErrorApiResponse.error`: stores its fields unchanged; the stack defaults to null. */
  function ErrorResponse(statusCode: int, message: string, errorStack: Option<string> := None)
    : (r: ErrorApiResponse)
    ensures r.statusCode == statusCode && r.message == message && r.errorStack == errorStack
  {
    ErrorApiResponse(statusCode, message, errorStack)
  }

  /** Leaving out `data` gives a `null` payload in both success envelopes. */
  lemma OmittedDataIsNull<T>(statusCode: int, message: string, total: int, prev: Option<int>, next: Option<int>)
    ensures PagedSuccess<T>(statusCode, message, total, prev, next).data.None?
    ensures SimpleSuccess<T>(statusCode, message).data.None?
    ensures ErrorResponse(statusCode, message).errorStack.None?
  {
  }

  /** The paginated factory loses nothing: equal envelopes come from equal arguments. */
  lemma PagedSuccessInjective<T>(s1: int, m1: string, t1: int, p1: Option<int>, n1: Option<int>, d1: Option<T>,
                                 s2: int, m2: string, t2: int, p2: Option<int>, n2: Option<int>, d2: Option<T>)
    requires PagedSuccess(s1, m1, t1, p1, n1, d1) == PagedSuccess(s2, m2, t2, p2, n2, d2)
    ensures s1 == s2 && m1 == m2 && t1 == t2 && p1 == p2 && n1 == n2 && d1 == d2
  {
  }
}
