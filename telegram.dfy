/**
 * The pure Telegram helpers of the backend: the image URL of a message's photo
 * and the message id taken from a `t.me` post link.
 */
module Telegram {
  import opened Wrappers
  import Text

  /** `CONFIG.TELEGRAM_BOT_TOKEN`, which the backend leaves empty. */
  const BotToken: string := ""

  /** The Bot API's file download prefix; the token follows it. */
  const FileApiPrefix: string := "https://api.telegram.org/file/bot"

  /** One size of a photo, as the Bot API lists them (smallest first). */
  datatype PhotoSize = PhotoSize(fileId: string)

  /** The part of a Bot API message the backend reads: its optional `photo` array. */
  datatype TelegramMessage = TelegramMessage(photo: Option<seq<PhotoSize>>)

  /**
   * `TelegramSync.extractImageUrl`: the download URL of the last (largest) photo
   * size, or null when the message carries no photo.
   */
  function ExtractImageUrl(message: TelegramMessage): (url: Option<string>)
    ensures url.Some? <==> message.photo.Some? && |message.photo.value| > 0
    ensures url.Some? ==> FileApiPrefix + BotToken <= url.value
  {
    match message.photo
    case Some(sizes) =>
      if |sizes| > 0 then Some(FileApiPrefix + BotToken + "/" + sizes[|sizes| - 1].fileId)
      else None
    case None => None
  }

  /** The extracted URL names the largest photo size: its last path segment is that file id. */
  lemma ImageUrlNamesLargestPhoto(message: TelegramMessage)
    requires message.photo.Some? && |message.photo.value| > 0
    requires '/' !in message.photo.value[|message.photo.value| - 1].fileId
    ensures Text.AfterLast(ExtractImageUrl(message).value, '/') ==
            message.photo.value[|message.photo.value| - 1].fileId
  {
    var sizes := message.photo.value;
    var fileId := sizes[|sizes| - 1].fileId;
    assert ExtractImageUrl(message).value == (FileApiPrefix + BotToken) + ['/'] + fileId;
    Text.AfterLastOfAppend(FileApiPrefix + BotToken, '/', fileId);
  }

  /** Quick-add's `telegram_url.split('/').pop()`. */
  function MessageIdFromUrl(telegramUrl: string): (messageId: string)
    ensures '/' !in messageId
    ensures |messageId| <= |telegramUrl| && telegramUrl[|telegramUrl| - |messageId|..] == messageId
    ensures |messageId| < |telegramUrl| ==> telegramUrl[|telegramUrl| - |messageId| - 1] == '/'
  {
    Text.AfterLast(telegramUrl, '/')
  }

  /** For a post link `https://t.me/<channel>/<n>` the extracted id is `n`. */
  lemma MessageIdOfPostLink(channel: string, n: string)
    requires '/' !in n
    ensures MessageIdFromUrl("https://t.me/" + channel + "/" + n) == n
  {
    assert "https://t.me/" + channel + "/" + n == ("https://t.me/" + channel) + ['/'] + n;
    Text.AfterLastOfAppend("https://t.me/" + channel, '/', n);
  }

  /** A link that ends in a slash yields the empty id, which is still a key of its own. */
  lemma TrailingSlashGivesEmptyId(telegramUrl: string)
    requires |telegramUrl| > 0 && telegramUrl[|telegramUrl| - 1] == '/'
    ensures MessageIdFromUrl(telegramUrl) == ""
  {
    var p := telegramUrl[..|telegramUrl| - 1];
    assert telegramUrl == p + ['/'] + "";
    Text.AfterLastOfAppend(p, '/', "");
  }
}
