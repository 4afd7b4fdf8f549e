TestResult.DisplayName,TestResult.Outcome,TestResult.Duration,TestResult.ResourceCount,RandomSeed
ApiLivros.SavedBookFoundById (correctness),Failed,00:00:01.1165612,2072907,1
ApiLivros.SavedBookFoundById (well-formedness),Passed,00:00:00.1855079,75808,1
