/**
 * The guards in front of every remote call: `get_headers` turns the API-key
 * field into the `Authorization` header, `get_data_from_discord` sends no
 * request without one, and `show_messages` checks its two input fields first.
 * The HTTP exchange itself is a parameter: a function from request to response.
 */
module Api {
  import opened Wrappers
  import opened Text

  /** The request headers: a dictionary from header name to value. */
  type Headers = map<string, string>

  const Authorization := "Authorization"

  /** One GET request as `requests.get(url, headers=headers)` issues it. */
  datatype Request = Request(url: string, headers: Headers)

  /** A response: its status code and its decoded JSON body. */
  datatype Response<J> = Response(status: int, body: J)

  /** What a remote call returns, with the requests it issued on the way. */
  datatype Call<J> = Call(data: Option<J>, sent: seq<Request>)

  /**
   * `get_headers`: `{'Authorization': key}` for the stripped key, or `None`
   * when the key field holds only whitespace.
   */
  function GetHeaders(apiKeyText: string): (h: Option<Headers>)
    ensures h.None? <==> AllSpace(apiKeyText)
    ensures h.Some? ==> h.value.Keys == {Authorization}
    ensures h.Some? ==> h.value[Authorization] != [] && Trimmed(h.value[Authorization])
    ensures h.Some? ==> |h.value[Authorization]| <= |apiKeyText|
  {
    StripEmpty(apiKeyText);
    var key := Strip(apiKeyText);
    if key != "" then Some(map[Authorization := key]) else None
  }

  /** The token reaches the header unmodified, whatever whitespace pads it in the field. */
  lemma HeaderCarriesToken(before: string, token: string, after: string)
    requires AllSpace(before) && AllSpace(after)
    requires token != [] && Trimmed(token)
    ensures GetHeaders(before + token + after) == Some(map[Authorization := token])
  {
    StripPadding(before, token, after);
  }

  /**
   * `get_data_from_discord(url)`: without headers, no request and no data;
   * otherwise exactly one GET with those headers, whose body is the data when
   * the status is 200 and is dropped otherwise.
   */
  function GetData<J>(apiKeyText: string, url: string, get: Request -> Response<J>): (c: Call<J>)
    ensures AllSpace(apiKeyText) <==> c.sent == []
    ensures AllSpace(apiKeyText) ==> c.data == None
    ensures !AllSpace(apiKeyText) ==>
      && c.sent == [Request(url, GetHeaders(apiKeyText).value)]
      && (c.data.Some? <==> get(c.sent[0]).status == 200)
      && (c.data.Some? ==> c.data.value == get(c.sent[0]).body)
  {
    match GetHeaders(apiKeyText)
    case None => Call(None, [])
    case Some(headers) =>
      var request := Request(url, headers);
      var response := get(request);
      Call(if response.status == 200 then Some(response.body) else None, [request])
  }

  /** The two fields `show_messages` reads, once they pass its check. */
  datatype MessageQuery = MessageQuery(channelId: string, limit: string)

  /**
   * The input check of `show_messages`: both fields stripped; the channel id
   * must be non-empty and the count a non-empty run of digits.
   */
  function CheckMessageQuery(channelText: string, countText: string): (q: Option<MessageQuery>)
    ensures q.Some? <==> !AllSpace(channelText) && IsDigits(Strip(countText))
    ensures q.Some? ==> q.value.channelId != [] && Trimmed(q.value.channelId) && IsDigits(q.value.limit)
  {
    StripEmpty(channelText);
    var channelId, count := Strip(channelText), Strip(countText);
    if channelId == "" || !IsDigits(count) then None else Some(MessageQuery(channelId, count))
  }

  /** The endpoint `show_messages` reads: the channel's messages, up to the given count. */
  function MessagesUrl(q: MessageQuery): (url: string)
    ensures |q.limit| < |url| && url[|url| - |q.limit|..] == q.limit
  {
    "https://discord.com/api/v9/channels/" + q.channelId + "/messages?limit=" + q.limit
  }

  /**
   * `show_messages` up to its request: rejected input sends nothing; accepted
   * input sends exactly what `get_data_from_discord` sends for the messages URL.
   */
  function ShowMessages<J>(apiKeyText: string, channelText: string, countText: string,
                           get: Request -> Response<J>): (c: Call<J>)
    ensures CheckMessageQuery(channelText, countText).None? ==> c == Call(None, [])
    ensures CheckMessageQuery(channelText, countText).Some? ==>
      c == GetData(apiKeyText, MessagesUrl(CheckMessageQuery(channelText, countText).value), get)
  {
    match CheckMessageQuery(channelText, countText)
    case None => Call(None, [])
    case Some(q) => GetData(apiKeyText, MessagesUrl(q), get)
  }

  /** A padded channel id and a padded digit count pass the check and are used without their padding. */
  lemma AcceptsPaddedQuery(a: string, channelId: string, b: string, c: string, limit: string, d: string)
    requires AllSpace(a) && AllSpace(b) && AllSpace(c) && AllSpace(d)
    requires channelId != [] && Trimmed(channelId) && IsDigits(limit)
    ensures CheckMessageQuery(a + channelId + b, c + limit + d) == Some(MessageQuery(channelId, limit))
  {
    StripPadding(a, channelId, b);
    assert Trimmed(limit);
    StripPadding(c, limit, d);
    CheckAccepts(a + channelId + b, c + limit + d);
  }

  lemma CheckAccepts(channelText: string, countText: string)
    requires Strip(channelText) != [] && IsDigits(Strip(countText))
    ensures CheckMessageQuery(channelText, countText) == Some(MessageQuery(Strip(channelText), Strip(countText)))
  {
  }

  /** A count holding anything but digits between its padding is rejected, and nothing is sent. */
  lemma RejectsNonDigitCount<J>(apiKeyText: string, channelText: string, c: string, count: string, d: string,
                                get: Request -> Response<J>)
    requires AllSpace(c) && AllSpace(d) && Trimmed(count)
    requires exists k :: 0 <= k < |count| && !('0' <= count[k] <= '9')
    ensures ShowMessages(apiKeyText, channelText, c + count + d, get) == Call(None, [])
  {
    StripPadding(c, count, d);
  }
}
