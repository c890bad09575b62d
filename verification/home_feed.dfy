/** picsure/src/pages/Home.jsx: the feed's relative timestamps and the like
    button. Times are integer milliseconds. */
module HomeFeed {

  /** The label `formatTimestamp` renders: `Nd`, `Nh`, `Nm` or "just now". */
  datatype Ago = Days(days: int) | Hours(hours: int) | Minutes(minutes: int) | JustNow

  const MinuteMs := 60000
  const HourMs := 3600000
  const DayMs := 86400000

  /** `formatTimestamp`: `Math.floor` of successive divisions by 1000, 60, 60
      and 24 (Dafny's `/` by a positive divisor rounds down, as
      `Math.floor` does); the largest non-zero unit wins. */
  function FormatTimestamp(timestamp: int, now: int): (r: Ago)
  {
    var diff := now - timestamp;
    var seconds := diff / 1000;
    var minutes := seconds / 60;
    var hours := minutes / 60;
    var days := hours / 24;
    if days > 0 then Days(days)
    else if hours > 0 then Hours(hours)
    else if minutes > 0 then Minutes(minutes)
    else JustNow
  }

  /** The label as a direct function of the difference: days when at least
      a day has passed, hours when at least an hour, minutes when at least
      a minute, and "just now" below a minute, including every timestamp
      in the future. Each count is the difference divided by its unit,
      rounded down. */
  lemma FormatByRange(timestamp: int, now: int)
    ensures var diff := now - timestamp;
            FormatTimestamp(timestamp, now) ==
              if diff >= DayMs then Days(diff / DayMs)
              else if diff >= HourMs then Hours(diff / HourMs)
              else if diff >= MinuteMs then Minutes(diff / MinuteMs)
              else JustNow
  {
  }

  /** A feed post as far as the like button is concerned. */
  datatype Post = Post(id: int, liked: bool, likes: int)

  /** `handleLike`: the post with the id flips `liked` and gains a like when
      it becomes liked, loses one when it becomes unliked. */
  function HandleLike(posts: seq<Post>, id: int): (r: seq<Post>)
    ensures |r| == |posts|
    ensures forall i | 0 <= i < |posts| && posts[i].id != id :: r[i] == posts[i]
    ensures forall i | 0 <= i < |posts| && posts[i].id == id ::
              && r[i].id == id
              && r[i].liked == !posts[i].liked
              && r[i].likes == (if posts[i].liked then posts[i].likes - 1 else posts[i].likes + 1)
  {
    seq(|posts|, i requires 0 <= i < |posts| =>
      if posts[i].id == id
      then posts[i].(liked := !posts[i].liked,
                     likes := if posts[i].liked then posts[i].likes - 1 else posts[i].likes + 1)
      else posts[i])
  }

  /** Liking the same post twice restores the feed. */
  lemma LikeTwiceRestores(posts: seq<Post>, id: int)
    ensures HandleLike(HandleLike(posts, id), id) == posts
  {
    var twice := HandleLike(HandleLike(posts, id), id);
    assert forall i | 0 <= i < |posts| :: twice[i] == posts[i];
  }
}
