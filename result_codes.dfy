/** Result codes returned by the exchange-rate manager. */
module ResultCodes {

  datatype Result =
    | Success
    | InvalidDate
    | CurrencyNotMatch
    | SameCurrency
    | NoCurrency
    | NoRate
}
