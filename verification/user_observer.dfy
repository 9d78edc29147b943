/** The observer hooked on the `creating` event of `User`. */
module UserObserver {
  import opened Users
  import opened Storage

  /**
   * Stamps the instance about to be inserted with an api key, overwriting
   * whatever key it held. `key` stands for the value of the 32-character
   * random string the observer draws.
   */
  method Creating(m: UserModel, key: string)
    requires |key| == KeyLength
    modifies m
    ensures m.apiKey == key && |m.apiKey| == KeyLength
    ensures m.name == old(m.name) && m.email == old(m.email) && m.password == old(m.password)
    ensures m.phone == old(m.phone) && m.role == old(m.role)
  {
    m.apiKey := key;
  }
}
