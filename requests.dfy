/**
 * Request-side helpers of the Flask backend: the client key taken from `X-Forwarded-For`,
 * the validation that runs before rate limiting in `/api/chat`, and the admin-token check.
 */
module Requests {
  import opened Wrappers
  import SlidingWindow

  /** Python's `str.isspace()` for one character (the characters `str.strip()` removes). */
  predicate IsSpace(c: char)
  {
    var n := c as int;
    || 0x09 <= n <= 0x0D || 0x1C <= n <= 0x20 || n == 0x85 || n == 0xA0 || n == 0x1680
    || 0x2000 <= n <= 0x200A || n == 0x2028 || n == 0x2029 || n == 0x202F || n == 0x205F || n == 0x3000
  }

  predicate AllSpace(s: string)
  {
    forall i :: 0 <= i < |s| ==> IsSpace(s[i])
  }

  /** `s.split(',')[0]`: the text before the first comma, or all of `s` when it has none. */
  function FirstField(s: string): (r: string)
    ensures r <= s
    ensures ',' !in r
    ensures |r| < |s| ==> s[|r|] == ','
  {
    if s == [] || s[0] == ',' then [] else [s[0]] + FirstField(s[1..])
  }

  /** The number of whitespace characters `s` starts with. */
  function LeadingSpace(s: string): (k: nat)
    ensures k <= |s|
    ensures forall i :: 0 <= i < k ==> IsSpace(s[i])
    ensures k < |s| ==> !IsSpace(s[k])
  {
    if s != [] && IsSpace(s[0]) then
      var k := 1 + LeadingSpace(s[1..]);
      assert forall i :: 1 <= i < k ==> s[i] == s[1..][i - 1];
      k
    else 0
  }

  /** Where the whitespace `s` ends with begins. */
  function TrailingSpaceStart(s: string): (k: nat)
    ensures k <= |s|
    ensures forall i :: k <= i < |s| ==> IsSpace(s[i])
    ensures k > 0 ==> !IsSpace(s[k - 1])
  {
    if s != [] && IsSpace(s[|s| - 1]) then
      var k := TrailingSpaceStart(s[..|s| - 1]);
      assert forall i :: k <= i < |s| - 1 ==> s[i] == s[..|s| - 1][i];
      k
    else |s|
  }

  /** `s.strip()`: `s` without its leading and trailing whitespace. */
  function Strip(s: string): (r: string)
    ensures |r| <= |s|
    ensures r != [] ==> !IsSpace(r[0]) && !IsSpace(r[|r| - 1])
  {
    var lo := LeadingSpace(s);
    var hi := TrailingSpaceStart(s);
    if hi <= lo then [] else s[lo..hi]
  }

  /** What `strip()` returns: the piece of `s` that starts and ends with a non-space character,
      with only whitespace cut off on either side. */
  lemma StripSpec(s: string)
    ensures var r := Strip(s); var lo := LeadingSpace(s);
      && lo + |r| <= |s| && r == s[lo..lo + |r|]
      && (forall i :: 0 <= i < lo ==> IsSpace(s[i]))
      && (forall i :: lo + |r| <= i < |s| ==> IsSpace(s[i]))
      && (r != [] ==> !IsSpace(r[0]) && !IsSpace(r[|r| - 1]))
  {
    var lo := LeadingSpace(s);
    var hi := TrailingSpaceStart(s);
    if hi <= lo {
      assert Strip(s) == [];
      assert s[lo..lo] == [];
    }
  }

  /** A stripped string is empty exactly when the original is all whitespace. */
  lemma StripEmptyIffAllSpace(s: string)
    ensures Strip(s) == [] <==> AllSpace(s)
  {
    var lo := LeadingSpace(s);
    var hi := TrailingSpaceStart(s);
    if lo < hi {
      assert !IsSpace(s[lo]);
    }
  }

  /** `_get_real_ip()`: the first hop of a non-empty `X-Forwarded-For` header (a missing header is
      the empty string), otherwise the socket's remote address, otherwise `'unknown'`. */
  function RealIp(forwardedFor: string, remoteAddr: Option<string>): (ip: string)
    ensures forwardedFor != [] ==> ',' !in ip
    ensures forwardedFor != [] && AllSpace(FirstField(forwardedFor)) ==> ip == []
    ensures forwardedFor == [] ==> ip != []
    ensures forwardedFor == [] && remoteAddr.Some? && remoteAddr.value != [] ==> ip == remoteAddr.value
    ensures forwardedFor == [] && (remoteAddr.None? || remoteAddr.value == []) ==> ip == "unknown"
    ensures forwardedFor != [] ==> ip == Strip(FirstField(forwardedFor))
  {
    if forwardedFor != [] then Strip(FirstField(forwardedFor))
    else if remoteAddr.Some? && remoteAddr.value != [] then remoteAddr.value
    else "unknown"
  }

  /** `split(',')[0]` of a joined header is its first hop, whatever follows the comma. */
  lemma {:induction false} FirstFieldOfJoin(first: string, rest: string)
    requires ',' !in first
    ensures FirstField(first + "," + rest) == first
  {
    if first != [] {
      assert first[0] in first;
      assert (first + "," + rest)[1..] == first[1..] + "," + rest;
      FirstFieldOfJoin(first[1..], rest);
      assert first == [first[0]] + first[1..];
    }
  }

  /** The client key is the stripped first hop of the header, whatever later hops say. */
  lemma RealIpIgnoresLaterHops(first: string, rest: string, remoteAddr: Option<string>)
    requires ',' !in first
    ensures RealIp(first + "," + rest, remoteAddr) == Strip(first)
  {
    FirstFieldOfJoin(first, rest);
  }

  /** `split(',')[0]` of a string without a comma is the whole string. */
  lemma {:induction false} FirstFieldWithoutComma(s: string)
    requires ',' !in s
    ensures FirstField(s) == s
  {
    if s != [] {
      assert s[0] in s;
      assert forall c :: c in s[1..] ==> c in s;
      FirstFieldWithoutComma(s[1..]);
      assert s == [s[0]] + s[1..];
    }
  }

  /** A header holding a single hop gives that hop, stripped. */
  lemma RealIpOfSingleHop(hop: string, remoteAddr: Option<string>)
    requires hop != [] && ',' !in hop
    ensures RealIp(hop, remoteAddr) == Strip(hop)
  {
    FirstFieldWithoutComma(hop);
  }

  // ---------------------------------------------------------------------------------------------
  // `/api/chat`: validation, then rate limiting

  datatype ChatOutcome =
    | MissingName         // 400 'Please provide your name.'
    | MissingMessage      // 400 'Please provide a message.'
    | TooManyRequests     // 429 'Please slow down ...'
    | Accepted(ip: string, recruiterName: string, message: string)

  /** The HTTP status `chat()` answers each outcome with. */
  function StatusCode(o: ChatOutcome): (code: int)
    ensures code == 200 <==> o.Accepted?
    ensures code == 429 <==> o == TooManyRequests
    ensures code == 400 <==> o == MissingName || o == MissingMessage
  {
    match o
    case MissingName => 400
    case MissingMessage => 400
    case TooManyRequests => 429
    case Accepted(_, _, _) => 200
  }

  /** The prefix of `chat()` up to the database work: strip name and message, reject either when
      empty, then consult the rate limiter with the client's key. Returns the outcome and the new
      `_chat_rate`. A missing JSON field is the empty string. */
  function ChatGate(recruiterName: string, message: string, forwardedFor: string, remoteAddr: Option<string>,
                    rate: map<string, seq<real>>, now: real): (res: (ChatOutcome, map<string, seq<real>>))
    ensures AllSpace(recruiterName) ==> res == (MissingName, rate)
    ensures !AllSpace(recruiterName) && AllSpace(message) ==> res == (MissingMessage, rate)
    ensures !AllSpace(recruiterName) && !AllSpace(message) ==>
      (res.1 == SlidingWindow.CheckRate(rate, RealIp(forwardedFor, remoteAddr), now).1
       && (res.0 == TooManyRequests <==> !SlidingWindow.CheckRate(rate, RealIp(forwardedFor, remoteAddr), now).0))
    ensures res.0.Accepted? ==> res.0 == Accepted(RealIp(forwardedFor, remoteAddr), Strip(recruiterName), Strip(message))
    ensures !AllSpace(recruiterName) && !AllSpace(message)
            && SlidingWindow.CheckRate(rate, RealIp(forwardedFor, remoteAddr), now).0 ==>
      res.0 == Accepted(RealIp(forwardedFor, remoteAddr), Strip(recruiterName), Strip(message))
  {
    StripEmptyIffAllSpace(recruiterName);
    StripEmptyIffAllSpace(message);
    var name := Strip(recruiterName);
    var msg := Strip(message);
    if name == [] then (MissingName, rate)
    else if msg == [] then (MissingMessage, rate)
    else
      var ip := RealIp(forwardedFor, remoteAddr);
      var check := SlidingWindow.CheckRate(rate, ip, now);
      if !check.0 then (TooManyRequests, check.1)
      else (Accepted(ip, name, msg), check.1)
  }

  /** Invalid chat requests never consume rate budget: however many arrive, the limiter's
      verdict for the next valid request is what it would have been without them. */
  lemma InvalidChatIsFree(recruiterName: string, message: string, forwardedFor: string, remoteAddr: Option<string>,
                          rate: map<string, seq<real>>, now: real, later: real)
    requires AllSpace(recruiterName) || AllSpace(message)
    ensures var after := ChatGate(recruiterName, message, forwardedFor, remoteAddr, rate, now).1;
      SlidingWindow.CheckRate(after, RealIp(forwardedFor, remoteAddr), later)
        == SlidingWindow.CheckRate(rate, RealIp(forwardedFor, remoteAddr), later)
  {
  }

  /** `chat()` up to the database work, acting on the shared limiter. */
  method Chat(limiter: SlidingWindow.ChatRateLimiter, recruiterName: string, message: string,
              forwardedFor: string, remoteAddr: Option<string>, now: real) returns (outcome: ChatOutcome)
    modifies limiter
    ensures (outcome, limiter.chatRate) == ChatGate(recruiterName, message, forwardedFor, remoteAddr, old(limiter.chatRate), now)
  {
    var name := Strip(recruiterName);
    var msg := Strip(message);
    if name == [] {
      return MissingName;
    }
    if msg == [] {
      return MissingMessage;
    }
    var ip := RealIp(forwardedFor, remoteAddr);
    var admitted := limiter.CheckChatRate(ip, now);
    if !admitted {
      return TooManyRequests;
    }
    return Accepted(ip, name, msg);
  }

  // ---------------------------------------------------------------------------------------------
  // Admin endpoints

  /** The admin routes' guard `not expected or token != expected` (negated): the query token is
      accepted only when `ADMIN_TOKEN` is set and the two are equal. A missing token is "". */
  function AdminAuthorized(token: string, expected: string): (ok: bool)
    ensures ok ==> token == expected && token != []
    ensures expected != [] && token == expected ==> ok
  {
    !(expected == [] || token != expected)
  }

  /** With `ADMIN_TOKEN` unset no token at all opens the admin routes, and a request without a
      token is always refused. */
  lemma AdminClosedWhenUnset(token: string, expected: string)
    ensures !AdminAuthorized(token, "")
    ensures !AdminAuthorized("", expected)
  {
  }
}
